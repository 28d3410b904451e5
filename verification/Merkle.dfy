/**
  The Merkle root of a block's transactions: hashes are paired level by level, an odd last one moving
  up unpaired. The reference is the recursive tree of section 2.1 of RFC 6962 (without its prefixes),
  which splits at the largest power of two below the length.
 */
module Merkle {
  import opened Primitives

  /** How two hashes are merged into one. */
  type Merge = (U256, U256) -> U256

  /** One level up: neighbours merged, an odd last one kept. */
  function Level(merge: Merge, hashes: seq<U256>): seq<U256> {
    if |hashes| <= 1 then hashes
    else [merge(hashes[0], hashes[1])] + Level(merge, hashes[2..])
  }

  /** Doubles `k` while twice it is below `n`. */
  function DoubleUp(n: nat, k: nat): (r: nat)
    requires 1 <= k < n
    ensures k <= r < n <= 2 * r
    decreases n - k
  {
    if 2 * k < n then DoubleUp(n, 2 * k) else k
  }

  /** The largest power of two below `n`. */
  function Split(n: nat): nat
    requires n >= 2
  {
    DoubleUp(n, 1)
  }

  lemma {:induction false} DoubleUpHalf(n: nat, m: nat, k: nat)
    requires n <= 2 * m <= n + 1 && 1 <= k < m && 2 * k < n
    ensures DoubleUp(n, 2 * k) == 2 * DoubleUp(m, k)
    decreases m - k
  {
    if 2 * k < m { DoubleUpHalf(n, m, 2 * k); }
  }

  /** One level up, the split is halved. */
  lemma {:induction false} SplitHalf(n: nat, m: nat)
    requires n > 2 && n <= 2 * m <= n + 1
    ensures Split(n) == 2 * Split(m)
  {
    DoubleUpHalf(n, m, 1);
  }

  /** The tree hash of section 2.1 of RFC 6962; no hashes give zero. */
  function TreeHash(merge: Merge, hashes: seq<U256>): U256
    decreases |hashes|
  {
    if hashes == [] then U256_ZERO
    else if |hashes| == 1 then hashes[0]
    else
      var k := Split(|hashes|);
      merge(TreeHash(merge, hashes[..k]), TreeHash(merge, hashes[k..]))
  }

  lemma {:induction false} LevelLength(merge: Merge, s: seq<U256>)
    ensures |s| <= 2 * |Level(merge, s)| <= |s| + 1
  {
    if |s| > 1 { LevelLength(merge, s[2..]); }
  }

  /** Entry `i` of the next level: the merged pair, or the odd last hash as it is. */
  lemma {:induction false} LevelMeans(merge: Merge, s: seq<U256>, i: nat)
    requires 2 * i < |s|
    ensures |Level(merge, s)| == (|s| + 1) / 2
    ensures Level(merge, s)[i] == if 2 * i + 1 < |s| then merge(s[2 * i], s[2 * i + 1]) else s[2 * i]
    decreases |s|
  {
    if |s| > 2 {
      LevelMeans(merge, s[2..], if i > 0 then i - 1 else 0);
    } else if |s| == 2 {
      assert s[2..] == [];
    }
  }

  function PowerOfTwo(k: nat): nat {
    if k == 0 then 1 else 2 * PowerOfTwo(k - 1)
  }

  /** A list is split at the greatest power of two below its length. */
  lemma {:induction false} SplitMeans(n: nat) returns (k: nat)
    requires n >= 2
    ensures Split(n) == PowerOfTwo(k) && PowerOfTwo(k) < n <= PowerOfTwo(k + 1)
  {
    k := DoubledTo(n, 0);
  }

  lemma {:induction false} DoubledTo(n: nat, j: nat) returns (k: nat)
    requires PowerOfTwo(j) < n && PowerOfTwo(j) >= 1
    ensures DoubleUp(n, PowerOfTwo(j)) == PowerOfTwo(k)
    decreases n - PowerOfTwo(j)
  {
    k := j;
    if 2 * PowerOfTwo(j) < n { k := DoubledTo(n, j + 1); }
  }

  /** No transactions have the zero root, and one is its own. */
  lemma {:induction false} SmallRoots(merge: Merge, a: U256)
    ensures TreeHash(merge, []) == 0 && TreeHash(merge, [a]) == a
  {
  }

  /** Levels of an even stretch and of what follows it are independent. */
  lemma {:induction false} LevelAppend(merge: Merge, a: seq<U256>, b: seq<U256>, half: nat)
    requires |a| == 2 * half
    ensures Level(merge, a + b) == Level(merge, a) + Level(merge, b)
    decreases |a|
  {
    if a == [] {
      assert a + b == b;
    } else {
      assert (a + b)[2..] == a[2..] + b;
      LevelAppend(merge, a[2..], b, half - 1);
    }
  }

  lemma {:induction false} LevelSplits(merge: Merge, s: seq<U256>, half: nat, l: seq<U256>, r: seq<U256>)
    requires |l| == 2 * half && s == l + r
    ensures half <= |Level(merge, s)|
    ensures Level(merge, s)[..half] == Level(merge, l) && Level(merge, s)[half..] == Level(merge, r)
  {
    LevelAppend(merge, l, r, half);
    LevelLength(merge, l);
    var up, low := Level(merge, s), Level(merge, l);
    assert |low| == half;
    assert up[..half] == low;
    assert up[half..] == Level(merge, r);
  }

  lemma {:induction false} TreeHashParts(merge: Merge, s: seq<U256>, l: seq<U256>, r: seq<U256>)
    requires |s| >= 2 && l == s[..Split(|s|)] && r == s[Split(|s|)..]
    ensures TreeHash(merge, s) == merge(TreeHash(merge, l), TreeHash(merge, r))
  {
  }

  lemma {:induction false} PairLevel(merge: Merge, s: seq<U256>)
    requires |s| == 2
    ensures TreeHash(merge, Level(merge, s)) == TreeHash(merge, s)
  {
    assert s[2..] == [];
    assert s[..1] == [s[0]] && s[1..] == [s[1]];
  }

  /** Going one level up does not change the tree hash. */
  lemma {:induction false} LevelKeepsTreeHash(merge: Merge, s: seq<U256>)
    ensures TreeHash(merge, Level(merge, s)) == TreeHash(merge, s)
    decreases |s|
  {
    if |s| == 2 {
      PairLevel(merge, s);
    } else if |s| > 2 {
      var up := Level(merge, s);
      LevelLength(merge, s);
      var half := Split(|up|);
      SplitHalf(|s|, |up|);
      var l, r := s[..2 * half], s[2 * half..];
      LevelKeepsTreeHash(merge, l);
      LevelKeepsTreeHash(merge, r);
      assert s == l + r;
      LevelSplits(merge, s, half, l, r);
      TreeHashParts(merge, s, l, r);
      TreeHashParts(merge, up, Level(merge, l), Level(merge, r));
    }
  }

  /** Pairs up the hashes of one level. */
  method NextLevel(merge: Merge, hashes: seq<U256>) returns (h: seq<U256>)
    requires |hashes| > 1
    ensures h == Level(merge, hashes)
  {
    var len := |hashes|;
    h := [];
    var i := 0;
    ghost var pairs := 0;
    assert hashes[i..] == hashes;
    while i < len - 1
      invariant 0 <= i <= len && i == 2 * pairs
      invariant Level(merge, hashes) == h + Level(merge, hashes[i..])
    {
      LevelStep(merge, hashes, i, h);
      h := h + [merge(hashes[i], hashes[i + 1])];
      i, pairs := i + 2, pairs + 1;
    }
    LevelEnd(merge, hashes, i);
    if len % 2 == 1 { h := h + [hashes[len - 1]]; }
  }

  lemma {:induction false} LevelStep(merge: Merge, hashes: seq<U256>, i: nat, h: seq<U256>)
    requires i + 1 < |hashes|
    ensures h + Level(merge, hashes[i..]) == h + [merge(hashes[i], hashes[i + 1])] + Level(merge, hashes[i + 2..])
  {
    var rest := hashes[i..];
    assert rest[2..] == hashes[i + 2..];
    assert Level(merge, rest) == [merge(hashes[i], hashes[i + 1])] + Level(merge, hashes[i + 2..]);
  }

  /** What pairing leaves over is at most one hash, kept as it is. */
  lemma {:induction false} LevelEnd(merge: Merge, hashes: seq<U256>, i: nat)
    requires |hashes| - 1 <= i <= |hashes|
    ensures Level(merge, hashes[i..]) == if i < |hashes| then [hashes[i]] else []
  {
    assert |hashes[i..]| <= 1;
  }

  /** Level by level down to one hash: the tree hash of the transactions. */
  method CalculateMerkleRoot(merge: Merge, txns: seq<U256>) returns (root: U256)
    ensures root == TreeHash(merge, txns)
  {
    var hashes := txns;
    while |hashes| > 1
      invariant TreeHash(merge, hashes) == TreeHash(merge, txns)
      decreases |hashes|
    {
      LevelKeepsTreeHash(merge, hashes);
      LevelLength(merge, hashes);
      hashes := NextLevel(merge, hashes);
    }
    root := if |hashes| == 1 then hashes[0] else U256_ZERO;
  }

  // ---------------------------------------------------------------------------------------------
  // What the root determines
  // ---------------------------------------------------------------------------------------------

  ghost predicate Injective(merge: Merge) {
    forall a, b, c, d :: merge(a, b) == merge(c, d) ==> a == c && b == d
  }

  /** With a merge that never collides, the root pins down every transaction of a known number. */
  lemma {:induction false} RootDeterminesList(merge: Merge, s: seq<U256>, t: seq<U256>)
    requires Injective(merge) && |s| == |t| && TreeHash(merge, s) == TreeHash(merge, t)
    ensures s == t
    decreases |s|
  {
    if |s| > 1 {
      var k := Split(|s|);
      RootDeterminesList(merge, s[..k], t[..k]);
      RootDeterminesList(merge, s[k..], t[k..]);
      assert s == s[..k] + s[k..] && t == t[..k] + t[k..];
    }
  }

  /** The number is not pinned down: a pair and its merged hash have the same root, whatever the merge. */
  lemma {:induction false} PairCollides(merge: Merge, a: U256, b: U256)
    ensures TreeHash(merge, [a, b]) == TreeHash(merge, [merge(a, b)])
  {
    assert [a, b][..1] == [a] && [a, b][1..] == [b];
  }
}
