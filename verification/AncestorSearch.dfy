/** Finding where two branches part, by descending from both ends at once. */
module AncestorSearch {
  import opened Primitives
  import opened BlockTree

  datatype Header = Header(prev: U256, shard: U256)

  type Headers = map<U256, Header>

  /** The stored headers are those of the tree. */
  ghost predicate Describes(headers: Headers, t: Tree) {
    forall b :: b in t.prev ==> b in headers && headers[b].prev == t.prev[b]
  }

  /** The `n + 1` blocks from `x` down, each with its distance from `x`. */
  ghost function Trail(t: Tree, x: U256, n: nat): map<U256, nat>
    requires Rooted(t) && Node(t, x) && n <= Height(t, x)
  {
    if n == 0 then map[x := 0] else Trail(t, x, n - 1)[At(t, x, Height(t, x) - n) := n]
  }

  lemma {:induction false} TrailHas(t: Tree, x: U256, n: nat, h: nat)
    requires Rooted(t) && Node(t, x) && n <= Height(t, x) && Height(t, x) - n <= h <= Height(t, x)
    ensures At(t, x, h) in Trail(t, x, n) && Trail(t, x, n)[At(t, x, h)] == Height(t, x) - h
  {
    if n > 0 && h > Height(t, x) - n {
      TrailHas(t, x, n - 1, h);
      AtHeight(t, x, h);
      AtHeight(t, x, Height(t, x) - n);
    }
  }

  lemma {:induction false} TrailOnly(t: Tree, x: U256, n: nat, k: U256)
    requires Rooted(t) && Node(t, x) && n <= Height(t, x) && k in Trail(t, x, n)
    ensures Trail(t, x, n)[k] <= n && k == At(t, x, Height(t, x) - Trail(t, x, n)[k])
  {
    if n > 0 && k != At(t, x, Height(t, x) - n) { TrailOnly(t, x, n - 1, k); }
  }

  /** The lowest height both searches have reached. */
  function Frontier(ha: nat, na: nat, hb: nat, nb: nat): nat
    requires na <= ha && nb <= hb
  {
    if ha - na >= hb - nb then ha - na else hb - nb
  }

  /** Above the frontier the two branches are known to differ everywhere. */
  ghost predicate ApartAbove(t: Tree, a: U256, b: U256, lo: nat)
    requires Rooted(t) && Node(t, a) && Node(t, b)
  {
    forall h {:trigger Differ(t, a, b, h)} :: lo < h <= Height(t, a) && h <= Height(t, b) ==> Differ(t, a, b, h)
  }

  /** A block of one branch on the trail of the other is shared at its height. */
  lemma {:induction false} OnTrail(t: Tree, a: U256, b: U256, na: nat, h: nat)
    requires Rooted(t) && Node(t, a) && Node(t, b) && na <= Height(t, a) && h <= Height(t, b)
    ensures At(t, b, h) in Trail(t, a, na) <==>
            Height(t, a) - na <= h <= Height(t, a) && At(t, a, h) == At(t, b, h)
    ensures At(t, b, h) in Trail(t, a, na) ==> Trail(t, a, na)[At(t, b, h)] == Height(t, a) - h
  {
    var k := At(t, b, h);
    if k in Trail(t, a, na) {
      TrailOnly(t, a, na, k);
      SharedSameHeight(t, a, b, Height(t, a) - Trail(t, a, na)[k], h);
    }
    if Height(t, a) - na <= h <= Height(t, a) && At(t, a, h) == k {
      TrailHas(t, a, na, h);
    }
  }

  /** Where the two searches are: `na` and `nb` steps down, and apart above their frontier. */
  ghost predicate Searching(t: Tree, a: U256, b: U256, na: nat, nb: nat)
    requires Rooted(t) && Node(t, a) && Node(t, b)
  {
    && na <= Height(t, a) && nb <= Height(t, b)
    && ApartAbove(t, a, b, Frontier(Height(t, a), na, Height(t, b), nb))
  }

  ghost predicate Collided(t: Tree, a: U256, b: U256, na: nat, nb: nat)
    requires Rooted(t) && Node(t, a) && Node(t, b) && na <= Height(t, a) && nb <= Height(t, b)
  {
    At(t, b, Height(t, b) - nb) in Trail(t, a, na) || At(t, a, Height(t, a) - na) in Trail(t, b, nb)
  }

  /** The trails collide exactly when the branches share the frontier block: that is the fork. */
  lemma {:induction false} CollisionIsFork(t: Tree, a: U256, b: U256, na: nat, nb: nat)
    requires Rooted(t) && Node(t, a) && Node(t, b) && Searching(t, a, b, na, nb)
    ensures var lo := Frontier(Height(t, a), na, Height(t, b), nb);
            && (Collided(t, a, b, na, nb) ==> IsFork(t, a, b, lo))
            && (!Collided(t, a, b, na, nb) && lo <= Height(t, a) && lo <= Height(t, b) ==> Differ(t, a, b, lo))
  {
    OnTrail(t, a, b, na, Height(t, b) - nb);
    OnTrail(t, b, a, nb, Height(t, a) - na);
  }

  /** Below the root both branches are nothing, which counts as shared. */
  lemma {:induction false} BothExhausted(t: Tree, a: U256, b: U256)
    requires Rooted(t) && Node(t, a) && Node(t, b)
    ensures Collided(t, a, b, Height(t, a), Height(t, b))
  {
    AtHeight(t, a, 0);
    AtHeight(t, b, 0);
    OnTrail(t, a, b, Height(t, a), 0);
  }

  function Deeper(n: nat, height: nat): nat {
    if n < height then n + 1 else n
  }

  /** Without a collision, both searches may go one step further. */
  lemma {:induction false} SearchFurther(t: Tree, a: U256, b: U256, na: nat, nb: nat)
    requires Rooted(t) && Node(t, a) && Node(t, b) && Searching(t, a, b, na, nb) && !Collided(t, a, b, na, nb)
    ensures Searching(t, a, b, Deeper(na, Height(t, a)), Deeper(nb, Height(t, b)))
    ensures na < Height(t, a) || nb < Height(t, b)
  {
    CollisionIsFork(t, a, b, na, nb);
    var lo := Frontier(Height(t, a), na, Height(t, b), nb);
    var lo' := Frontier(Height(t, a), Deeper(na, Height(t, a)), Height(t, b), Deeper(nb, Height(t, b)));
    forall h | lo' < h <= Height(t, a) && h <= Height(t, b) ensures Differ(t, a, b, h) {
      assert h >= lo;
    }
    if na == Height(t, a) && nb == Height(t, b) { BothExhausted(t, a, b); }
  }

  /** One step down a branch, stopping at the nothing below the root. */
  method Descend(headers: Headers, ghost t: Tree, ghost x: U256, ghost n: nat, m: map<U256, nat>, last: U256, dist: nat)
    returns (m': map<U256, nat>, last': U256)
    requires Rooted(t) && Describes(headers, t) && Node(t, x) && n <= Height(t, x)
    requires m == Trail(t, x, n) && last == At(t, x, Height(t, x) - n)
    requires n < Height(t, x) ==> dist == n + 1
    ensures m' == Trail(t, x, Deeper(n, Height(t, x))) && last' == At(t, x, Height(t, x) - Deeper(n, Height(t, x)))
  {
    AtHeight(t, x, Height(t, x) - n);
    if last != U256_ZERO {
      AtPrev(t, x, Height(t, x) - n);
      last' := headers[last].prev;
      m' := m[last' := dist];
    } else {
      m', last' := m, last;
    }
  }

  /** The two trails, `na` and `nb` blocks long below their starts, where one has run into the other. */
  ghost predicate Met(t: Tree, hashA: U256, hashB: U256, a: map<U256, nat>, b: map<U256, nat>, lastA: U256, lastB: U256, na: nat, nb: nat)
    requires Rooted(t) && Node(t, hashA) && Node(t, hashB)
  {
    && Searching(t, hashA, hashB, na, nb) && Collided(t, hashA, hashB, na, nb)
    && a == Trail(t, hashA, na) && lastA == At(t, hashA, Height(t, hashA) - na)
    && b == Trail(t, hashB, nb) && lastB == At(t, hashB, Height(t, hashB) - nb)
  }

  /** Descends from both blocks in step until one trail runs into the other. */
  method LatestCommonAncestor(headers: Headers, ghost t: Tree, hashA: U256, hashB: U256)
    returns (a: map<U256, nat>, b: map<U256, nat>, lastA: U256, lastB: U256)
    requires Rooted(t) && Describes(headers, t) && hashA in t.height && hashB in t.height
    ensures exists na, nb :: Met(t, hashA, hashB, a, b, lastA, lastB, na, nb)
  {
    a, b, lastA, lastB := map[hashA := 0], map[hashB := 0], hashA, hashB;
    ghost var na: nat, nb: nat := 0, 0;
    var dist := 1;
    while lastB !in a && lastA !in b && !(lastA == U256_ZERO && lastB == U256_ZERO)
      invariant Searching(t, hashA, hashB, na, nb)
      invariant a == Trail(t, hashA, na) && lastA == At(t, hashA, Height(t, hashA) - na)
      invariant b == Trail(t, hashB, nb) && lastB == At(t, hashB, Height(t, hashB) - nb)
      invariant (na < Height(t, hashA) ==> dist == na + 1) && (nb < Height(t, hashB) ==> dist == nb + 1)
      decreases Height(t, hashA) - na + Height(t, hashB) - nb
    {
      SearchFurther(t, hashA, hashB, na, nb);
      a, lastA := Descend(headers, t, hashA, na, a, lastA, dist);
      b, lastB := Descend(headers, t, hashB, nb, b, lastB, dist);
      na, nb := Deeper(na, Height(t, hashA)), Deeper(nb, Height(t, hashB));
      dist := dist + 1;
    }
    AtHeight(t, hashA, Height(t, hashA) - na);
    AtHeight(t, hashB, Height(t, hashB) - nb);
    BothExhausted(t, hashA, hashB);
    assert Met(t, hashA, hashB, a, b, lastA, lastB, na, nb);
  }

  /** Distances from the two ends to the collision. */
  function IntersectDist(a: map<U256, nat>, b: map<U256, nat>, lastA: U256, lastB: U256): (nat, nat)
    requires lastA in a && lastB in b
  {
    (if lastB in a then a[lastB] else a[lastA], if lastA in b then b[lastA] else b[lastB])
  }

  lemma {:induction false} FrontierIsFork(t: Tree, a: U256, b: U256, na: nat, nb: nat)
    requires Rooted(t) && Node(t, a) && Node(t, b) && Searching(t, a, b, na, nb) && Collided(t, a, b, na, nb)
    ensures Fork(t, a, b) == Frontier(Height(t, a), na, Height(t, b), nb)
  {
    CollisionIsFork(t, a, b, na, nb);
    ForkUnique(t, a, b, Frontier(Height(t, a), na, Height(t, b), nb), Fork(t, a, b));
  }

  /** One of the two distances: to the other end's last block if it is on this trail, else to the end
      of the trail. It leads to height `f`. */
  lemma {:induction false} DistanceReaches(t: Tree, a: U256, b: U256, na: nat, nb: nat, f: nat)
    requires Rooted(t) && Node(t, a) && Node(t, b) && na <= Height(t, a) && nb <= Height(t, b)
    requires Collided(t, a, b, na, nb) && f == Frontier(Height(t, a), na, Height(t, b), nb)
    ensures var m, lastA, lastB := Trail(t, a, na), At(t, a, Height(t, a) - na), At(t, b, Height(t, b) - nb);
            lastA in m && (if lastB in m then m[lastB] else m[lastA]) == Height(t, a) - f
  {
    TrailHas(t, a, na, Height(t, a) - na);
    OnTrail(t, a, b, na, Height(t, b) - nb);
    OnTrail(t, b, a, nb, Height(t, a) - na);
  }

  /** The blocks of the branch of `x` above height `f`, by height. */
  ghost function Branch(t: Tree, x: U256, f: nat): map<nat, U256>
    requires Rooted(t) && Node(t, x)
  {
    map h: nat | f < h <= Height(t, x) :: At(t, x, h)
  }

  predicate Injective(m: map<U256, nat>) {
    forall j, k :: j in m && k in m && m[j] == m[k] ==> j == k
  }

  predicate KeyedAt(heights: map<nat, U256>, h: int, k: U256) {
    h >= 0 && h in heights && heights[h] == k
  }

  /** Distances below `dist` turned into heights. */
  ghost predicate ReKeyed(m: map<U256, nat>, height: nat, dist: nat, heights: map<nat, U256>) {
    && (forall h :: h in heights ==> heights[h] in m && m[heights[h]] < dist && h + m[heights[h]] == height)
    && (forall k :: k in m && m[k] < dist ==> KeyedAt(heights, height - m[k], k))
  }

  lemma {:induction false} ReKeyedHas(t: Tree, x: U256, n: nat, dist: nat, m: map<U256, nat>, heights: map<nat, U256>, h: nat)
    requires Rooted(t) && Node(t, x) && dist <= n <= Height(t, x) && m == Trail(t, x, n)
    requires ReKeyed(m, Height(t, x), dist, heights) && Height(t, x) - dist < h <= Height(t, x)
    ensures h in heights && heights[h] == At(t, x, h)
  {
    TrailHas(t, x, n, h);
    assert KeyedAt(heights, Height(t, x) - m[At(t, x, h)], At(t, x, h));
  }

  lemma {:induction false} ReKeyedOnly(t: Tree, x: U256, dist: nat, m: map<U256, nat>, heights: map<nat, U256>, h: nat)
    requires Rooted(t) && Node(t, x) && ReKeyed(m, Height(t, x), dist, heights) && h in heights
    ensures Height(t, x) - dist < h <= Height(t, x)
  {
    var d := m[heights[h]];
    assert d < dist && h + d == Height(t, x);
  }

  /** A trail re-keyed by height holds the branch above the collision. */
  lemma {:induction false} ReKeyedTrail(t: Tree, x: U256, n: nat, dist: nat, m: map<U256, nat>, heights: map<nat, U256>)
    requires Rooted(t) && Node(t, x) && dist <= n <= Height(t, x) && m == Trail(t, x, n)
    requires ReKeyed(m, Height(t, x), dist, heights)
    ensures heights == Branch(t, x, Height(t, x) - dist)
  {
    forall h: nat | h in heights ensures Height(t, x) - dist < h <= Height(t, x) { ReKeyedOnly(t, x, dist, m, heights, h); }
    forall h: nat | Height(t, x) - dist < h <= Height(t, x) ensures h in heights && heights[h] == At(t, x, h) {
      ReKeyedHas(t, x, n, dist, m, heights, h);
    }
  }

  lemma {:induction false} ReKeyKept(m: map<U256, nat>, height: nat, dist: nat, heights: map<nat, U256>, k: U256, d: nat)
    requires ReKeyed(m, height, dist, heights) && k !in m && d >= dist
    ensures ReKeyed(m[k := d], height, dist, heights)
  {
    var m' := m[k := d];
    forall j | j in m' && m'[j] < dist ensures KeyedAt(heights, height - m'[j], j) {
      assert j != k && m'[j] == m[j];
      assert KeyedAt(heights, height - m[j], j);
    }
  }

  lemma {:induction false} ReKeyOne(m: map<U256, nat>, height: nat, dist: nat, heights: map<nat, U256>, k: U256, d: nat)
    requires ReKeyed(m, height, dist, heights) && d < dist <= height && k !in m
    requires forall j :: j in m ==> m[j] != d
    ensures ReKeyed(m[k := d], height, dist, heights[height - d := k])
  {
    var heights', m' := heights[height - d := k], m[k := d];
    forall j | j in m' && m'[j] < dist ensures KeyedAt(heights', height - m'[j], j) {
      if j != k {
        assert m'[j] == m[j] != d;
        assert KeyedAt(heights, height - m[j], j);
      }
    }
  }

  /** All but `todo` have been re-keyed. */
  ghost predicate ReKeying(m: map<U256, nat>, todo: set<U256>, height: nat, dist: nat, heights: map<nat, U256>) {
    todo <= m.Keys && ReKeyed(m - todo, height, dist, heights)
  }

  lemma {:induction false} ReKeyNext(m: map<U256, nat>, todo: set<U256>, height: nat, dist: nat, heights: map<nat, U256>, k: U256)
    requires Injective(m) && dist <= height && ReKeying(m, todo, height, dist, heights) && k in todo
    ensures ReKeying(m, todo - {k}, height, dist, if m[k] < dist then heights[height - m[k] := k] else heights)
  {
    if m[k] < dist {
      ReKeyOne(m - todo, height, dist, heights, k, m[k]);
    } else {
      ReKeyKept(m - todo, height, dist, heights, k, m[k]);
    }
    assert m - (todo - {k}) == (m - todo)[k := m[k]];
  }

  /** Re-keys distances by height, keeping what lies above the collision. */
  method ByHeight(m: map<U256, nat>, height: nat, dist: nat) returns (heights: map<nat, U256>)
    requires Injective(m) && dist <= height
    ensures ReKeyed(m, height, dist, heights)
  {
    heights := map[];
    var todo := m.Keys;
    while todo != {}
      invariant ReKeying(m, todo, height, dist, heights)
      decreases |todo|
    {
      var k :| k in todo;
      ReKeyNext(m, todo, height, dist, heights, k);
      if m[k] < dist { heights := heights[height - m[k] := k]; }
      todo := todo - {k};
    }
    assert m - todo == m;
  }

  lemma {:induction false} TrailInjective(t: Tree, x: U256, n: nat, m: map<U256, nat>)
    requires Rooted(t) && Node(t, x) && n <= Height(t, x) && m == Trail(t, x, n)
    ensures Injective(m)
  {
    forall j, k | j in m && k in m && m[j] == m[k] ensures j == k {
      TrailOnly(t, x, n, j);
      TrailOnly(t, x, n, k);
    }
  }

  /** The branch of `x` above the block `dist` below it, from the trail of `x`. */
  method BranchByHeight(ghost t: Tree, ghost x: U256, ghost n: nat, m: map<U256, nat>, height: nat, dist: nat)
    returns (heights: map<nat, U256>)
    requires Rooted(t) && Node(t, x) && dist <= n <= Height(t, x) && m == Trail(t, x, n) && height == Height(t, x)
    ensures heights == Branch(t, x, height - dist)
  {
    TrailInjective(t, x, n, m);
    heights := ByHeight(m, height, dist);
    ReKeyedTrail(t, x, n, dist, m, heights);
  }

  /** The branch above the fork is what is an ancestor of `x` and not of `y`. */
  lemma {:induction false} BranchIsRest(t: Tree, x: U256, y: U256, b: U256)
    requires Rooted(t) && x in t.height && y in t.height
    ensures b in Branch(t, x, Fork(t, x, y)).Values <==> b in Ancestors(t, x) && b !in Ancestors(t, y)
  {
    var branch, f := Branch(t, x, Fork(t, x, y)), Fork(t, x, y);
    AncestorsAre(t, x, b);
    AncestorsAre(t, y, b);
    if b in branch.Values {
      var h :| h in branch && branch[h] == b;
      AtHeight(t, x, h);
      if h <= Height(t, y) { assert Differ(t, x, y, h); }
    }
    if b in Ancestors(t, x) && b !in Ancestors(t, y) {
      var h := t.height[b];
      if h <= f { SharedBelow(t, x, y, f, h); }
      assert h in branch && branch[h] == b;
    }
  }

  lemma {:induction false} PathsAreRest(t: Tree, a: U256, b: U256, down: map<nat, U256>, up: map<nat, U256>)
    requires Rooted(t) && a in t.height && b in t.height && Fork(t, b, a) == Fork(t, a, b)
    requires down == Branch(t, a, Fork(t, a, b)) && up == Branch(t, b, Fork(t, a, b))
    ensures down.Values == Ancestors(t, a) - Ancestors(t, b) && up.Values == Ancestors(t, b) - Ancestors(t, a)
    ensures (forall h :: h in down ==> Height(t, down[h]) == h) && (forall h :: h in up ==> Height(t, up[h]) == h)
  {
    forall x ensures x in down.Values <==> x in Ancestors(t, a) - Ancestors(t, b) { BranchIsRest(t, a, b, x); }
    forall x ensures x in up.Values <==> x in Ancestors(t, b) - Ancestors(t, a) { BranchIsRest(t, b, a, x); }
    forall h | h in down ensures Height(t, down[h]) == h { AtHeight(t, a, h); }
    forall h | h in up ensures Height(t, up[h]) == h { AtHeight(t, b, h); }
  }

  lemma {:induction false} ForkEither(t: Tree, a: U256, b: U256)
    requires Rooted(t) && Node(t, a) && Node(t, b)
    ensures Fork(t, b, a) == Fork(t, a, b)
  {
    var f := Fork(t, a, b);
    forall h: nat | f < h <= Height(t, b) && h <= Height(t, a) ensures Differ(t, b, a, h) { assert Differ(t, a, b, h); }
    assert IsFork(t, b, a, f);
    ForkUnique(t, b, a, Fork(t, b, a), f);
  }

  /** Where the trails have met, both distances lead to the fork and stay on the trails. */
  lemma {:induction false} DistancesToFork(t: Tree, a: U256, b: U256, ma: map<U256, nat>, mb: map<U256, nat>,
                                           lastA: U256, lastB: U256, na: nat, nb: nat)
    requires Rooted(t) && Node(t, a) && Node(t, b) && Met(t, a, b, ma, mb, lastA, lastB, na, nb)
    ensures lastA in ma && lastB in mb
    ensures IntersectDist(ma, mb, lastA, lastB) == (Height(t, a) - Fork(t, a, b), Height(t, b) - Fork(t, a, b))
    ensures Height(t, a) - Fork(t, a, b) <= na <= Height(t, a) && Height(t, b) - Fork(t, a, b) <= nb <= Height(t, b)
  {
    FrontierIsFork(t, a, b, na, nb);
    DistanceReaches(t, a, b, na, nb, Fork(t, a, b));
    DistanceReaches(t, b, a, nb, na, Fork(t, a, b));
  }

  /** The blocks to undo from `a` down to the fork with `b`, and those to apply from there up to `b`.
      `a` is the current block, of height `height`. */
  method CalculateBlockPath(headers: Headers, ghost t: Tree, a: U256, b: U256, height: nat)
    returns (down: map<nat, U256>, up: map<nat, U256>)
    requires Rooted(t) && Describes(headers, t) && a in t.height && b in t.height && height == Height(t, a)
    ensures down == Branch(t, a, Fork(t, a, b)) && up == Branch(t, b, Fork(t, a, b))
    ensures down.Values == Ancestors(t, a) - Ancestors(t, b) && up.Values == Ancestors(t, b) - Ancestors(t, a)
    ensures (forall h :: h in down ==> Height(t, down[h]) == h) && (forall h :: h in up ==> Height(t, up[h]) == h)
  {
    var ma, mb, lastA, lastB := LatestCommonAncestor(headers, t, a, b);
    ghost var na, nb :| Met(t, a, b, ma, mb, lastA, lastB, na, nb);
    DistancesToFork(t, a, b, ma, mb, lastA, lastB, na, nb);
    var (aDist, bDist) := IntersectDist(ma, mb, lastA, lastB);
    var bHeight := height - aDist + bDist;
    down := BranchByHeight(t, a, na, ma, height, aDist);
    up := BranchByHeight(t, b, nb, mb, bHeight, bDist);
    ForkEither(t, a, b);
    PathsAreRest(t, a, b, down, up);
  }
}
