/**
  Power grids of the client world: connected components of the placed segments, kept up to date
  while segments are inserted (which may merge grids) and deleted (which may split one).

  `Partition` is the invariant the net keeps; `Components` is the independent reference: the
  connected components, through paths of cardinal neighbours, of a set of segments.
 */
module PowerGrid {
  import opened Primitives

  datatype Direction = North | East | South | West {
    function DxDy(): (int, int) {
      match this
      case North => (0, 1)
      case East => (1, 0)
      case South => (0, -1)
      case West => (-1, 0)
    }
  }

  /** The four directions in the order the search visits them. */
  const CARDINALS: seq<Direction> := [North, East, South, West]

  datatype Coord = Coord(x: int, y: int) {
    function MoveInDir(dir: Direction): Coord {
      Coord(x + dir.DxDy().0, y + dir.DxDy().1)
    }
  }

  type Grid = set<Coord>

  /** `Grid::is_adj`: the point is in the grid or one of its four neighbours is. */
  predicate IsAdj(grid: Grid, point: Coord) {
    || point in grid
    || Coord(point.x - 1, point.y) in grid
    || Coord(point.x + 1, point.y) in grid
    || Coord(point.x, point.y - 1) in grid
    || Coord(point.x, point.y + 1) in grid
  }

  // ---------------------------------------------------------------------------------------------
  // Reference: connectivity by paths
  // ---------------------------------------------------------------------------------------------

  /** Manhattan distance one. */
  predicate Adjacent(a: Coord, b: Coord) {
    var dx := if a.x < b.x then b.x - a.x else a.x - b.x;
    var dy := if a.y < b.y then b.y - a.y else a.y - b.y;
    dx + dy == 1
  }

  ghost predicate IsPath(s: set<Coord>, p: seq<Coord>, a: Coord, b: Coord) {
    && |p| > 0 && p[0] == a && p[|p| - 1] == b
    && (forall i :: 0 <= i < |p| ==> p[i] in s)
    && (forall i :: 0 < i < |p| ==> Adjacent(p[i - 1], p[i]))
  }

  /** `b` can be reached from `a` without leaving `s`. */
  ghost predicate Linked(s: set<Coord>, a: Coord, b: Coord) {
    exists p :: IsPath(s, p, a, b)
  }

  ghost function Component(s: set<Coord>, a: Coord): set<Coord> {
    set b | b in s && Linked(s, a, b)
  }

  /** The connected components of `s`. */
  ghost function Components(s: set<Coord>): set<Grid> {
    set a | a in s :: Component(s, a)
  }

  ghost predicate Connected(g: Grid) {
    forall a, b {:trigger Linked(g, a, b)} :: a in g && b in g ==> Linked(g, a, b)
  }

  /** The same square or neighbouring ones. */
  predicate Touching(a: Coord, b: Coord) {
    a == b || Adjacent(a, b)
  }

  ghost predicate Separated(g: Grid, h: Grid) {
    forall a, b {:trigger Touching(a, b)} :: a in g && b in h ==> !Touching(a, b)
  }

  /** Non-empty, connected, and pairwise neither overlapping nor touching. */
  ghost predicate Partition(grids: seq<Grid>) {
    && (forall i :: 0 <= i < |grids| ==> grids[i] != {} && Connected(grids[i]))
    && (forall i, j :: 0 <= i < j < |grids| ==> Separated(grids[i], grids[j]))
  }

  ghost function Segments(grids: seq<Grid>): set<Coord> {
    set i, c | 0 <= i < |grids| && c in grids[i] :: c
  }

  // ---------------------------------------------------------------------------------------------
  // Paths
  // ---------------------------------------------------------------------------------------------

  lemma {:induction false} LinkedRefl(s: set<Coord>, a: Coord)
    requires a in s
    ensures Linked(s, a, a)
  {
    assert IsPath(s, [a], a, a);
  }

  lemma {:induction false} LinkedStep(s: set<Coord>, a: Coord, b: Coord, c: Coord)
    requires Linked(s, a, b) && Adjacent(b, c) && c in s
    ensures Linked(s, a, c)
  {
    var p :| IsPath(s, p, a, b);
    assert IsPath(s, p + [c], a, c);
  }

  lemma {:induction false} LinkedExtend(s: set<Coord>, a: Coord, b: Coord, p: seq<Coord>, c: Coord)
    requires Linked(s, a, b) && IsPath(s, p, b, c)
    ensures Linked(s, a, c)
    decreases |p|
  {
    if |p| > 1 {
      var q := p[..|p| - 1];
      assert IsPath(s, q, b, q[|q| - 1]);
      LinkedExtend(s, a, b, q, q[|q| - 1]);
      LinkedStep(s, a, q[|q| - 1], c);
    }
  }

  lemma {:induction false} LinkedTrans(s: set<Coord>, a: Coord, b: Coord, c: Coord)
    requires Linked(s, a, b) && Linked(s, b, c)
    ensures Linked(s, a, c)
  {
    var p :| IsPath(s, p, b, c);
    LinkedExtend(s, a, b, p, c);
  }

  lemma {:induction false} LinkedSym(s: set<Coord>, a: Coord, b: Coord)
    requires Linked(s, a, b)
    ensures Linked(s, b, a)
  {
    var p :| IsPath(s, p, a, b);
    var q := seq(|p|, i requires 0 <= i < |p| => p[|p| - 1 - i]);
    assert IsPath(s, q, b, a);
  }

  lemma {:induction false} LinkedMono(s: set<Coord>, t: set<Coord>, a: Coord, b: Coord)
    requires Linked(s, a, b) && s <= t
    ensures Linked(t, a, b)
  {
    var p :| IsPath(s, p, a, b);
    assert IsPath(t, p, a, b);
  }

  /** A path cannot leave a part of `s` that nothing else in `s` touches. */
  lemma {:induction false} PathStays(s: set<Coord>, c: set<Coord>, p: seq<Coord>, a: Coord, b: Coord)
    requires IsPath(s, p, a, b) && a in c
    requires Separated(c, s - c)
    ensures IsPath(c, p, a, b)
    decreases |p|
  {
    if |p| > 1 {
      var q := p[..|p| - 1];
      assert IsPath(s, q, a, q[|q| - 1]);
      PathStays(s, c, q, a, q[|q| - 1]);
      assert q[|q| - 1] in c && Touching(q[|q| - 1], b);
      assert b in c;
      forall i | 0 <= i < |p| ensures p[i] in c {
        if i < |q| { assert p[i] == q[i]; }
      }
    }
  }

  /** A non-empty connected part that nothing else touches is the component of each member. */
  lemma {:induction false} ClosedIsComponent(s: set<Coord>, g: Grid, a: Coord)
    requires g <= s && a in g && Connected(g) && Separated(g, s - g)
    ensures Component(s, a) == g
  {
    forall b | b in s && Linked(s, a, b) ensures b in g {
      var p :| IsPath(s, p, a, b);
      PathStays(s, g, p, a, b);
      assert p[|p| - 1] in g;
    }
    forall b | b in g ensures Linked(s, a, b) {
      LinkedMono(g, s, a, b);
    }
  }

  /** Everything reachable from one member makes a connected set. */
  lemma {:induction false} ConnectedFrom(g: Grid, a: Coord)
    requires forall b :: b in g ==> Linked(g, a, b)
    ensures Connected(g)
  {
    forall b, c | b in g && c in g ensures Linked(g, b, c) {
      LinkedSym(g, a, b);
      LinkedTrans(g, b, a, c);
    }
  }

  /** Two connected sets with a bridge between them form one connected set. */
  lemma {:induction false} ConnectedJoin(g: Grid, h: Grid, a: Coord, b: Coord)
    requires Connected(g) && Connected(h) && a in g && b in h
    requires Touching(a, b)
    ensures Connected(g + h)
  {
    var u := g + h;
    LinkedRefl(u, a);
    if a != b { LinkedStep(u, a, a, b); }
    forall c | c in u ensures Linked(u, a, c) {
      if c in g {
        LinkedMono(g, u, a, c);
      } else {
        LinkedMono(h, u, b, c);
        LinkedTrans(u, a, b, c);
      }
    }
    ConnectedFrom(u, a);
  }

  lemma {:induction false} IsAdjWitness(g: Grid, p: Coord) returns (q: Coord)
    requires IsAdj(g, p)
    ensures q in g && Touching(q, p)
  {
    q := if p in g then p
         else if Coord(p.x - 1, p.y) in g then Coord(p.x - 1, p.y)
         else if Coord(p.x + 1, p.y) in g then Coord(p.x + 1, p.y)
         else if Coord(p.x, p.y - 1) in g then Coord(p.x, p.y - 1)
         else Coord(p.x, p.y + 1);
  }

  /** The neighbour test of the code is adjacency to, or membership in, the grid. */
  lemma {:induction false} IsAdjMeaning(g: Grid, p: Coord)
    ensures IsAdj(g, p) <==> !Separated(g, {p})
  {
    if IsAdj(g, p) {
      var q := IsAdjWitness(g, p);
    }
    if !Separated(g, {p}) {
      var a, b :| a in g && b in {p} && Touching(a, b);
      assert a == p || a == Coord(p.x - 1, p.y) || a == Coord(p.x + 1, p.y)
          || a == Coord(p.x, p.y - 1) || a == Coord(p.x, p.y + 1);
    }
  }

  lemma {:induction false} SeparatedSym(g: Grid, h: Grid)
    requires Separated(g, h)
    ensures Separated(h, g)
  {
    forall a, b | a in h && b in g ensures !Touching(a, b) {
      assert !Touching(b, a);
    }
  }

  // ---------------------------------------------------------------------------------------------
  // The partition is the set of components
  // ---------------------------------------------------------------------------------------------

  lemma {:induction false} GridClosed(grids: seq<Grid>, i: int)
    requires Partition(grids) && 0 <= i < |grids|
    ensures Separated(grids[i], Segments(grids) - grids[i])
  {
    var rest := Segments(grids) - grids[i];
    forall a, b | a in grids[i] && b in rest ensures !Touching(a, b) {
      var j :| 0 <= j < |grids| && b in grids[j];
      if i < j {
        assert Separated(grids[i], grids[j]);
      } else {
        assert j != i && Separated(grids[j], grids[i]);
        SeparatedSym(grids[j], grids[i]);
      }
    }
  }

  lemma {:induction false} GridsDistinct(grids: seq<Grid>)
    requires Partition(grids)
    ensures forall i, j :: 0 <= i < j < |grids| ==> grids[i] != grids[j]
  {
    forall i, j | 0 <= i < j < |grids| ensures grids[i] != grids[j] {
      assert grids[i] != {};
      var a :| a in grids[i];
      assert Separated(grids[i], grids[j]) && Touching(a, a);
    }
  }

  lemma {:induction false} DistinctSeqToSet(grids: seq<Grid>)
    requires forall i, j :: 0 <= i < j < |grids| ==> grids[i] != grids[j]
    ensures multiset(grids) == multiset(set g | g in grids)
  {
    if grids != [] {
      var n := |grids| - 1;
      var init, last := grids[..n], grids[n];
      DistinctSeqToSet(init);
      assert grids == init + [last];
      assert last !in init;
      assert (set g | g in grids) == (set g | g in init) + {last};
    }
  }

  lemma {:induction false} GridIsComponent(grids: seq<Grid>, i: int, a: Coord)
    requires Partition(grids) && 0 <= i < |grids| && a in grids[i]
    ensures a in Segments(grids) && Component(Segments(grids), a) == grids[i]
  {
    GridClosed(grids, i);
    ClosedIsComponent(Segments(grids), grids[i], a);
  }

  /** Being a connected component, as a predicate on one set. */
  ghost predicate IsComponent(s: set<Coord>, g: Grid) {
    exists a :: a in s && g == Component(s, a)
  }

  lemma {:induction false} GridsAreComponents(grids: seq<Grid>, g: Grid)
    requires Partition(grids)
    ensures g in grids <==> IsComponent(Segments(grids), g)
  {
    var s := Segments(grids);
    if g in grids {
      var i :| 0 <= i < |grids| && grids[i] == g;
      assert grids[i] != {};
      var a :| a in grids[i];
      GridIsComponent(grids, i, a);
    }
    if IsComponent(s, g) {
      var a :| a in s && g == Component(s, a);
      var i :| 0 <= i < |grids| && a in grids[i];
      GridIsComponent(grids, i, a);
    }
  }

  /** The grids are, each exactly once, the connected components of all placed segments: the result
      depends on which segments are present and not on how they came to be there. */
  lemma {:induction false} PartitionIsComponents(grids: seq<Grid>)
    requires Partition(grids)
    ensures multiset(grids) == multiset(Components(Segments(grids)))
  {
    var s := Segments(grids);
    assert (set g | g in grids) == Components(s) by {
      forall g ensures g in grids <==> g in Components(s) {
        GridsAreComponents(grids, g);
      }
    }
    GridsDistinct(grids);
    DistinctSeqToSet(grids);
  }

  /** Adding a grid that touches none of the others keeps a partition. */
  lemma {:induction false} PartitionSnoc(grids: seq<Grid>, g: Grid)
    requires Partition(grids) && g != {} && Connected(g)
    requires forall i :: 0 <= i < |grids| ==> Separated(grids[i], g)
    ensures Partition(grids + [g])
    ensures Segments(grids + [g]) == Segments(grids) + g
  {
    var all := grids + [g];
    forall i, j | 0 <= i < j < |all| ensures Separated(all[i], all[j]) {
      if j == |grids| { assert all[i] == grids[i]; }
    }
    forall c | c in g ensures c in Segments(all) { assert c in all[|grids|]; }
    forall c | c in Segments(grids) ensures c in Segments(all) {
      var i :| 0 <= i < |grids| && c in grids[i];
      assert c in all[i];
    }
  }

  lemma {:induction false} PartitionTail(grids: seq<Grid>)
    requires Partition(grids) && grids != []
    ensures Partition(grids[1..])
    ensures Segments(grids) == grids[0] + Segments(grids[1..])
    ensures forall i :: 0 <= i < |grids[1..]| ==> Separated(grids[1..][i], grids[0])
  {
    var t := grids[1..];
    forall i | 0 <= i < |t| ensures Separated(t[i], grids[0]) {
      assert Separated(grids[0], grids[i + 1]);
      SeparatedSym(grids[0], t[i]);
    }
    forall c | c in Segments(grids) ensures c in grids[0] + Segments(t) {
      var i :| 0 <= i < |grids| && c in grids[i];
      if i > 0 { assert c in t[i - 1]; }
    }
    forall c | c in Segments(t) ensures c in Segments(grids) {
      var i :| 0 <= i < |t| && c in t[i];
      assert c in grids[i + 1];
    }
  }

  lemma {:induction false} SeparatedFromSegments(grids: seq<Grid>, h: Grid)
    ensures (forall i :: 0 <= i < |grids| ==> Separated(grids[i], h)) <==> Separated(Segments(grids), h)
  {
    if forall i :: 0 <= i < |grids| ==> Separated(grids[i], h) {
      forall a, b | a in Segments(grids) && b in h ensures !Touching(a, b) {
        var i :| 0 <= i < |grids| && a in grids[i];
        assert Separated(grids[i], h);
      }
    }
    if Separated(Segments(grids), h) {
      forall i, a, b | 0 <= i < |grids| && a in grids[i] && b in h ensures !Touching(a, b) {
        assert a in Segments(grids);
      }
    }
  }

  // ---------------------------------------------------------------------------------------------
  // Splitting one grid
  // ---------------------------------------------------------------------------------------------

  /** What the search over one part has established: `seen` is what was taken from the pool so far,
      `done` the squares whose neighbours have all been tried. */
  ghost predicate Explored(start: Coord, seen: set<Coord>, done: set<Coord>, rest: set<Coord>) {
    && done <= seen && start in seen && seen !! rest
    && (forall c {:trigger Linked(seen, start, c)} :: c in seen ==> Linked(seen, start, c))
    && Separated(done, rest)
  }

  lemma {:induction false} ExploreNeighbour(start: Coord, seen: set<Coord>, done: set<Coord>, rest: set<Coord>, s: Coord, n: Coord)
    requires Explored(start, seen, done, rest) && s in seen && n in rest && Adjacent(s, n)
    ensures Explored(start, seen + {n}, done, rest - {n})
  {
    var seen' := seen + {n};
    forall c | c in seen' ensures Linked(seen', start, c) {
      if c == n {
        LinkedMono(seen, seen', start, s);
        LinkedStep(seen', start, s, n);
      } else {
        LinkedMono(seen, seen', start, c);
      }
    }
  }

  lemma {:induction false} NeighbourIsCardinal(s: Coord, b: Coord)
    ensures Adjacent(s, b) <==> exists k :: 0 <= k < |CARDINALS| && b == s.MoveInDir(CARDINALS[k])
  {
    if Adjacent(s, b) {
      var k := if b.y == s.y + 1 then 0 else if b.x == s.x + 1 then 1 else if b.y == s.y - 1 then 2 else 3;
      assert b == s.MoveInDir(CARDINALS[k]);
    }
  }

  lemma {:induction false} ExploreDone(start: Coord, seen: set<Coord>, done: set<Coord>, rest: set<Coord>, s: Coord)
    requires Explored(start, seen, done, rest) && s in seen
    requires forall k :: 0 <= k < |CARDINALS| ==> s.MoveInDir(CARDINALS[k]) !in rest
    ensures Explored(start, seen, done + {s}, rest)
  {
    forall a, b | a in done + {s} && b in rest ensures !Touching(a, b) {
      if a == s { NeighbourIsCardinal(s, b); }
    }
  }

  /** Bookkeeping of the inner loop: `found` moved from the pool to the seen squares. */
  ghost predicate Moved(seen: set<Coord>, pool: set<Coord>, found: seq<Coord>, seen': set<Coord>, rest: set<Coord>) {
    && seen' == seen + (set c | c in found)
    && seen' + rest == seen + pool
    && (|rest| < |pool| || (rest == pool && found == []))
  }

  lemma {:induction false} MoveOne(seen: set<Coord>, pool: set<Coord>, found: seq<Coord>, seen': set<Coord>, rest: set<Coord>, n: Coord)
    requires Moved(seen, pool, found, seen', rest) && n in rest
    ensures Moved(seen, pool, found + [n], seen' + {n}, rest - {n})
  {
    assert (set c | c in found + [n]) == (set c | c in found) + {n};
  }

  /** The inner loop: the first `k` neighbours of `s` are no longer in the pool. */
  ghost predicate Trying(s: Coord, pool: set<Coord>, start: Coord, seen: set<Coord>, done: set<Coord>, k: nat, found: seq<Coord>, seen': set<Coord>, rest: set<Coord>)
    requires k <= |CARDINALS|
  {
    && Explored(start, seen', done, rest) && s in seen' && Moved(seen, pool, found, seen', rest)
    && forall j :: 0 <= j < k ==> s.MoveInDir(CARDINALS[j]) !in rest
  }

  lemma {:induction false} TakeNeighbour(s: Coord, pool: set<Coord>, start: Coord, seen: set<Coord>, done: set<Coord>, k: nat, found: seq<Coord>, seen': set<Coord>, rest: set<Coord>)
    requires k < |CARDINALS| && Trying(s, pool, start, seen, done, k, found, seen', rest)
    ensures var n := s.MoveInDir(CARDINALS[k]);
            if n in rest then Trying(s, pool, start, seen, done, k + 1, found + [n], seen' + {n}, rest - {n})
            else Trying(s, pool, start, seen, done, k + 1, found, seen', rest)
  {
    var n := s.MoveInDir(CARDINALS[k]);
    if n in rest {
      NeighbourIsCardinal(s, n);
      ExploreNeighbour(start, seen', done, rest, s, n);
      MoveOne(seen, pool, found, seen', rest, n);
    }
  }

  /** Tries the four neighbours of `s`, moving those still in the pool to the queue. */
  method TryNeighbours(s: Coord, pool: set<Coord>, ghost start: Coord, ghost seen: set<Coord>, ghost done: set<Coord>)
    returns (found: seq<Coord>, rest: set<Coord>, ghost seen': set<Coord>)
    requires Explored(start, seen, done, pool) && s in seen
    ensures Explored(start, seen', done + {s}, rest)
    ensures Moved(seen, pool, found, seen', rest)
  {
    found, rest, seen' := [], pool, seen;
    for k := 0 to |CARDINALS|
      invariant Trying(s, pool, start, seen, done, k, found, seen', rest)
    {
      var n := s.MoveInDir(CARDINALS[k]);
      TakeNeighbour(s, pool, start, seen, done, k, found, seen', rest);
      if n in rest {
        rest, found, seen' := rest - {n}, found + [n], seen' + {n};
      }
    }
    ExploreDone(start, seen', done, rest, s);
  }

  /** The search: what was seen is either done or queued, and makes up the pool with the rest. */
  ghost predicate Searching(start: Coord, pool: set<Coord>, seen: set<Coord>, part: set<Coord>, queue: seq<Coord>, rest: set<Coord>) {
    Explored(start, seen, part, rest) && seen + rest == pool && seen == part + (set c | c in queue)
  }

  lemma {:induction false} SearchNext(start: Coord, pool: set<Coord>, seen: set<Coord>, part: set<Coord>, queue: seq<Coord>, rest: set<Coord>,
                                      found: seq<Coord>, seen': set<Coord>, rest': set<Coord>)
    requires queue != [] && Searching(start, pool, seen, part, queue, rest)
    requires Explored(start, seen', part + {queue[0]}, rest') && Moved(seen, rest, found, seen', rest')
    ensures Searching(start, pool, seen', part + {queue[0]}, queue[1..] + found, rest')
  {
    assert (set c | c in queue) == {queue[0]} + (set c | c in queue[1..]);
    assert (set c | c in queue[1..] + found) == (set c | c in queue[1..]) + (set c | c in found);
  }

  lemma {:induction false} SearchStarts(start: Coord, pool: set<Coord>)
    requires start in pool
    ensures Searching(start, pool, {start}, {}, [start], pool - {start})
  {
    LinkedRefl({start}, start);
  }

  lemma {:induction false} SearchEnds(start: Coord, pool: set<Coord>, seen: set<Coord>, part: set<Coord>, rest: set<Coord>)
    requires Searching(start, pool, seen, part, [], rest)
    ensures part != {} && Connected(part) && part !! rest && part + rest == pool && Separated(part, rest)
  {
    assert part == seen;
    ConnectedFrom(part, start);
  }

  /** Breadth-first search from an arbitrary segment of the pool: takes out its whole component. */
  method ExplorePart(pool: set<Coord>) returns (part: Grid, rest: set<Coord>)
    requires pool != {}
    ensures part != {} && Connected(part) && part !! rest && part + rest == pool
    ensures Separated(part, rest)
  {
    var start :| start in pool;
    var queue := [start];
    rest := pool - {start};
    part := {};
    ghost var seen := {start};
    SearchStarts(start, pool);
    while queue != []
      invariant Searching(start, pool, seen, part, queue, rest)
      decreases |rest|, |queue|
    {
      var s := queue[0];
      assert s in (set c | c in queue);
      var found, left, seen' := TryNeighbours(s, rest, start, seen, part);
      SearchNext(start, pool, seen, part, queue, rest, found, seen', left);
      queue, rest, part, seen := queue[1..] + found, left, part + {s}, seen';
    }
    SearchEnds(start, pool, seen, part, rest);
  }

  /** Progress of a split: the grids found so far do not touch what is still to be explored. */
  ghost predicate Splitting(all: set<Coord>, grids: seq<Grid>, pool: set<Coord>) {
    && Partition(grids) && Segments(grids) + pool == all
    && Segments(grids) !! pool && Separated(Segments(grids), pool)
  }

  lemma {:induction false} SplitNext(all: set<Coord>, grids: seq<Grid>, pool: set<Coord>, part: Grid, rest: set<Coord>)
    requires Splitting(all, grids, pool) && part != {} && Connected(part)
    requires part !! rest && part + rest == pool && Separated(part, rest)
    ensures Splitting(all, grids + [part], rest) && |rest| < |pool|
  {
    assert Separated(Segments(grids), part);
    SeparatedFromSegments(grids, part);
    PartitionSnoc(grids, part);
    assert |pool| == |part| + |rest| by { assert pool == part + rest; }
  }

  /** `Grid::remove_segments`: what is left of the grid, split into connected parts. */
  method RemoveFromGrid(grid: Grid, segments: set<Coord>) returns (grids: seq<Grid>)
    ensures Partition(grids)
    ensures Segments(grids) == grid - segments
  {
    var pool := grid - segments;
    grids := [];
    while pool != {}
      invariant Splitting(grid - segments, grids, pool)
      decreases |pool|
    {
      var part, rest := ExplorePart(pool);
      SplitNext(grid - segments, grids, pool, part, rest);
      grids := grids + [part];
      pool := rest;
    }
  }

  // ---------------------------------------------------------------------------------------------
  // The net of grids
  // ---------------------------------------------------------------------------------------------

  /** Progress of one insertion: `grids` is the queue of grids, the last `kept` of which were found
      not to touch the segment; `master` collects those which do. */
  ghost predicate Inserting(all: set<Coord>, segment: Coord, grids: seq<Grid>, kept: nat, master: Option<Grid>) {
    && kept <= |grids| && Partition(grids)
    && (forall i :: |grids| - kept <= i < |grids| ==> Separated(grids[i], {segment}))
    && match master
       case None => Segments(grids) == all
       case Some(m) =>
         && segment in m && Connected(m)
         && Segments(grids) + m == all + {segment}
         && Separated(Segments(grids), m - {segment})
  }

  lemma {:induction false} SingletonConnected(c: Coord)
    ensures Connected({c})
  {
    LinkedRefl({c}, c);
  }

  lemma {:induction false} InsertTouching(all: set<Coord>, segment: Coord, grids: seq<Grid>, kept: nat, master: Option<Grid>)
    requires Inserting(all, segment, grids, kept, master) && kept < |grids| && IsAdj(grids[0], segment)
    ensures var m := if master.Some? then master.value + grids[0] else grids[0] + {segment};
            Inserting(all, segment, grids[1..], kept, Some(m))
  {
    var g := grids[0];
    PartitionTail(grids);
    SeparatedFromSegments(grids[1..], g);
    var q := IsAdjWitness(g, segment);
    SingletonConnected(segment);
    if master.Some? {
      assert Touching(segment, q);
      ConnectedJoin(master.value, g, segment, q);
    } else {
      ConnectedJoin(g, {segment}, q, segment);
    }
  }

  lemma {:induction false} InsertAway(all: set<Coord>, segment: Coord, grids: seq<Grid>, kept: nat, master: Option<Grid>)
    requires Inserting(all, segment, grids, kept, master) && kept < |grids| && !IsAdj(grids[0], segment)
    ensures Inserting(all, segment, grids[1..] + [grids[0]], kept + 1, master)
  {
    IsAdjMeaning(grids[0], segment);
    PartitionTail(grids);
    PartitionSnoc(grids[1..], grids[0]);
  }

  lemma {:induction false} InsertFinish(all: set<Coord>, segment: Coord, grids: seq<Grid>, kept: nat, master: Option<Grid>)
    requires Inserting(all, segment, grids, kept, master) && kept == |grids|
    ensures var m := if master.Some? then master.value else {segment};
            Partition(grids + [m]) && Segments(grids + [m]) == all + {segment}
  {
    var m := if master.Some? then master.value else {segment};
    SingletonConnected(segment);
    SeparatedFromSegments(grids, {segment});
    SeparatedFromSegments(grids, m);
    PartitionSnoc(grids, m);
  }

  lemma {:induction false} PartitionAppend(a: seq<Grid>, b: seq<Grid>)
    requires Partition(a) && Partition(b) && Separated(Segments(a), Segments(b))
    ensures Partition(a + b)
    ensures Segments(a + b) == Segments(a) + Segments(b)
  {
    var all := a + b;
    forall i, j | 0 <= i < j < |all| ensures Separated(all[i], all[j]) {
      if i < |a| <= j {
        assert all[i] == a[i] && all[j] == b[j - |a|];
        forall c, d | c in all[i] && d in all[j] ensures !Touching(c, d) {
          assert c in Segments(a) && d in Segments(b);
        }
      }
    }
    forall c | c in Segments(a) ensures c in Segments(all) {
      var i :| 0 <= i < |a| && c in a[i];
      assert c in all[i];
    }
    forall c | c in Segments(b) ensures c in Segments(all) {
      var i :| 0 <= i < |b| && c in b[i];
      assert c in all[|a| + i];
    }
  }

  lemma {:induction false} SeparatedSubset(g: Grid, h: Grid, g': Grid, h': Grid)
    requires Separated(g, h) && g' <= g && h' <= h
    ensures Separated(g', h')
  {
  }

  /** `GridNet`: the queue of independent grids. */
  class GridNet {
    var grids: seq<Grid>

    ghost predicate Valid()
      reads this
    {
      Partition(grids)
    }

    /** Every segment placed in some grid. */
    ghost function Placed(): set<Coord>
      reads this
    {
      Segments(grids)
    }

    constructor ()
      ensures Valid() && Placed() == {}
    {
      grids := [];
    }

    /** Joins every grid the segment touches into one; a segment touching none starts a grid. */
    method AddSegment(segment: Coord)
      requires Valid()
      modifies this
      ensures Valid() && Placed() == old(Placed()) + {segment}
      ensures multiset(grids) == multiset(Components(old(Placed()) + {segment}))
    {
      ghost var all := Placed();
      var master: Option<Grid> := None;
      var n := |grids|;
      for k := 0 to n
        invariant n - k <= |grids|
        invariant Inserting(all, segment, grids, |grids| - (n - k), master)
      {
        var grid := grids[0];
        if IsAdj(grid, segment) {
          InsertTouching(all, segment, grids, |grids| - (n - k), master);
          grids := grids[1..];
          master := Some(if master.Some? then master.value + grid else grid + {segment});
        } else {
          InsertAway(all, segment, grids, |grids| - (n - k), master);
          grids := grids[1..] + [grid];
        }
      }
      InsertFinish(all, segment, grids, |grids|, master);
      grids := grids + [if master.Some? then master.value else {segment}];
      PartitionIsComponents(grids);
    }

    /** Takes the segments out of every grid, each of which may fall apart or vanish. */
    method RemoveSegments(segments: set<Coord>)
      requires Valid()
      modifies this
      ensures Valid() && Placed() == old(Placed()) - segments
      ensures multiset(grids) == multiset(Components(old(Placed()) - segments))
    {
      var todo := |grids|;
      ghost var done: seq<Grid> := [];
      ghost var left := grids;
      assert grids == left + done;
      for k := 0 to todo
        invariant |left| == todo - k && grids == left + done
        invariant Partition(left) && Partition(done)
        invariant Segments(left) + Segments(done) - segments == old(Placed()) - segments
        invariant Segments(done) !! segments
        invariant Separated(Segments(left), Segments(done))
      {
        var grid := grids[0];
        assert grid == left[0] && grids[1..] == left[1..] + done;
        PartitionTail(left);
        var parts := RemoveFromGrid(grid, segments);
        SeparatedSubset(Segments(left), Segments(done), Segments(parts), Segments(done));
        SeparatedSym(Segments(parts), Segments(done));
        PartitionAppend(done, parts);
        SeparatedFromSegments(left[1..], grid);
        SeparatedUnion(Segments(left[1..]), Segments(done), Segments(parts));
        assert grids[1..] + parts == left[1..] + (done + parts);
        grids, left, done := grids[1..] + parts, left[1..], done + parts;
      }
      assert left == [] && grids == done;
      PartitionIsComponents(grids);
    }
  }

  lemma {:induction false} SeparatedUnion(g: Grid, h: Grid, k: Grid)
    requires Separated(g, h) && Separated(g, k)
    ensures Separated(g, h + k)
  {
  }

  // ---------------------------------------------------------------------------------------------
  // Whole runs
  // ---------------------------------------------------------------------------------------------

  datatype Op = Add(segment: Coord) | Remove(segments: set<Coord>)

  /** The placed segments after a run, with no notion of grids at all. */
  function After(ops: seq<Op>): set<Coord> {
    if ops == [] then {}
    else
      var before := After(ops[..|ops| - 1]);
      match ops[|ops| - 1]
      case Add(c) => before + {c}
      case Remove(cs) => before - cs
  }

  /** After every run the grids are exactly the connected components of the segments present. */
  method Run(ops: seq<Op>) returns (net: GridNet)
    ensures net.Valid() && net.Placed() == After(ops)
    ensures multiset(net.grids) == multiset(Components(After(ops)))
  {
    net := new GridNet();
    PartitionIsComponents(net.grids);
    for k := 0 to |ops|
      invariant net.Valid() && net.Placed() == After(ops[..k])
      invariant fresh(net)
      invariant multiset(net.grids) == multiset(Components(After(ops[..k])))
    {
      assert ops[..k + 1][..k] == ops[..k];
      match ops[k]
      case Add(c) => net.AddSegment(c);
      case Remove(cs) => net.RemoveSegments(cs);
    }
    assert ops[..|ops|] == ops;
  }

  /** Two runs that leave the same segments leave the same grids, whatever their histories. */
  lemma {:induction false} HistoryIndependent(left: seq<Grid>, right: seq<Grid>)
    requires Partition(left) && Partition(right) && Segments(left) == Segments(right)
    ensures multiset(left) == multiset(right)
  {
    PartitionIsComponents(left);
    PartitionIsComponents(right);
  }

  // ---------------------------------------------------------------------------------------------
  // In full
  // ---------------------------------------------------------------------------------------------

  /** A square is present after a run exactly when it was added and not removed later. */
  lemma {:induction false} AfterMeans(ops: seq<Op>, c: Coord)
    ensures c in After(ops) <==>
            exists i :: 0 <= i < |ops| && ops[i] == Add(c) && forall j :: i < j < |ops| && ops[j].Remove? ==> c !in ops[j].segments
  {
    if ops != [] {
      var n := |ops| - 1;
      var init := ops[..n];
      AfterMeans(init, c);
      if i :| 0 <= i < n && init[i] == Add(c) && forall j :: i < j < n && init[j].Remove? ==> c !in init[j].segments {
        if !(ops[n].Remove? && c in ops[n].segments) {
          assert ops[i] == Add(c);
          assert forall j :: i < j < |ops| && ops[j].Remove? ==> c !in ops[j].segments;
        }
      }
      if i :| 0 <= i < |ops| && ops[i] == Add(c) && forall j :: i < j < |ops| && ops[j].Remove? ==> c !in ops[j].segments {
        if i < n {
          assert init[i] == Add(c);
          assert forall j :: i < j < n && init[j].Remove? ==> c !in init[j].segments;
        }
      }
    }
  }

  /** One step left, right, up or down. */
  lemma {:induction false} AdjacentMeans(a: Coord, b: Coord)
    ensures Adjacent(a, b) <==> (a.x == b.x && (b.y == a.y + 1 || b.y == a.y - 1)) || (a.y == b.y && (b.x == a.x + 1 || b.x == a.x - 1))
  {
  }

  /** `p` leads from `a` to `b` over squares of `s`, each one step from the one before. */
  ghost predicate Walk(s: set<Coord>, p: seq<Coord>, a: Coord, b: Coord) {
    && p != [] && p[0] == a && p[|p| - 1] == b && (forall c :: c in p ==> c in s)
    && forall i :: 0 <= i < |p| - 1 ==>
         || (p[i].x == p[i + 1].x && (p[i + 1].y == p[i].y + 1 || p[i + 1].y == p[i].y - 1))
         || (p[i].y == p[i + 1].y && (p[i + 1].x == p[i].x + 1 || p[i + 1].x == p[i].x - 1))
  }

  lemma {:induction false} WalkIsPath(s: set<Coord>, p: seq<Coord>, a: Coord, b: Coord)
    ensures Walk(s, p, a, b) <==> IsPath(s, p, a, b)
  {
    if Walk(s, p, a, b) {
      forall i | 0 < i < |p| ensures Adjacent(p[i - 1], p[i]) { AdjacentMeans(p[i - 1], p[i - 1 + 1]); }
    }
    if IsPath(s, p, a, b) {
      forall i | 0 <= i < |p| - 1 ensures Adjacent(p[i], p[i + 1]) { assert Adjacent(p[i + 1 - 1], p[i + 1]); }
      forall i | 0 <= i < |p| - 1 ensures
         || (p[i].x == p[i + 1].x && (p[i + 1].y == p[i].y + 1 || p[i + 1].y == p[i].y - 1))
         || (p[i].y == p[i + 1].y && (p[i + 1].x == p[i].x + 1 || p[i + 1].x == p[i].x - 1))
      {
        AdjacentMeans(p[i], p[i + 1]);
      }
    }
  }

  /** Two segments are in one grid exactly when one can be walked to from the other over segments. */
  lemma {:induction false} SameGridIff(grids: seq<Grid>, a: Coord, b: Coord)
    requires Partition(grids)
    ensures (exists i :: 0 <= i < |grids| && a in grids[i] && b in grids[i]) <==> exists p :: Walk(Segments(grids), p, a, b)
  {
    if i :| 0 <= i < |grids| && a in grids[i] && b in grids[i] {
      assert Linked(grids[i], a, b);
      LinkedMono(grids[i], Segments(grids), a, b);
      var p :| IsPath(Segments(grids), p, a, b);
      WalkIsPath(Segments(grids), p, a, b);
    }
    if p :| Walk(Segments(grids), p, a, b) {
      WalkIsPath(Segments(grids), p, a, b);
      PathInOneGrid(grids, p, a, b);
    }
  }

  lemma {:induction false} PathInOneGrid(grids: seq<Grid>, p: seq<Coord>, a: Coord, b: Coord)
    requires Partition(grids) && IsPath(Segments(grids), p, a, b)
    ensures exists i :: 0 <= i < |grids| && a in grids[i] && b in grids[i]
    decreases |p|
  {
    if |p| == 1 {
      assert a in Segments(grids);
    } else {
      var n := |p| - 1;
      var init := p[..n];
      assert forall i :: 0 < i < |init| ==> Adjacent(init[i - 1], init[i]);
      assert IsPath(Segments(grids), init, a, p[n - 1]);
      PathInOneGrid(grids, init, a, p[n - 1]);
      var i :| 0 <= i < |grids| && a in grids[i] && p[n - 1] in grids[i];
      assert p[n] in Segments(grids) && Adjacent(p[n - 1], p[n]);
      GridClosed(grids, i);
      assert Touching(p[n - 1], b);
    }
  }
}
