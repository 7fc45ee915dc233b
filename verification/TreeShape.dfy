/** The shape of the v1 Merkle tree, for any way `f` of combining two nodes: the recursively
    split tree of section 2.1 of RFC 6962, its sibling paths, and one level of the loop that
    builds it bottom-up, promoting an unpaired last node. */
module TreeShape {
  datatype Side = Left | Right

  // One proof step: a sibling and the side it stands on.
  datatype Step<+T> = Step(side: Side, sibling: T)

  // The largest power of two strictly below n.
  function Split(n: nat): (k: nat)
    requires n > 1
    ensures 1 <= k < n <= 2 * k
    ensures n > 2 ==> k % 2 == 0
  {
    if n == 2 then 1 else
      var half := Split((n + 1) / 2);
      2 * half
  }

  lemma SplitHalves(n: nat)
    requires n > 2
    ensures Split(n) == 2 * Split((n + 1) / 2)
  {
  }

  function Fold<T>(f: (T, T) -> T, xs: seq<T>): T
    requires xs != []
    decreases |xs|
  {
    if |xs| == 1 then xs[0]
    else
      var k := Split(|xs|);
      f(Fold(f, xs[..k]), Fold(f, xs[k..]))
  }

  // The siblings of leaf i, from the leaf up (the PATH of RFC 6962 section 2.1.1).
  function Path<T>(f: (T, T) -> T, xs: seq<T>, i: nat): seq<Step<T>>
    requires i < |xs|
    decreases |xs|
  {
    if |xs| == 1 then []
    else
      var k := Split(|xs|);
      if i < k then Path(f, xs[..k], i) + [Step(Right, Fold(f, xs[k..]))]
      else Path(f, xs[k..], i - k) + [Step(Left, Fold(f, xs[..k]))]
  }

  // The two definitions unfolded once, for k the split of |xs|.
  lemma Splits<T>(f: (T, T) -> T, xs: seq<T>, i: nat, k: nat)
    requires i < |xs| && |xs| > 1 && k == Split(|xs|)
    ensures Fold(f, xs) == f(Fold(f, xs[..k]), Fold(f, xs[k..]))
    ensures i < k ==> Path(f, xs, i) == Path(f, xs[..k], i) + [Step(Right, Fold(f, xs[k..]))]
    ensures i >= k ==> Path(f, xs, i) == Path(f, xs[k..], i - k) + [Step(Left, Fold(f, xs[..k]))]
  {
  }

  // Climbs from a leaf along a proof.
  function Apply<T>(f: (T, T) -> T, leaf: T, proof: seq<Step<T>>): T
    decreases |proof|
  {
    if proof == [] then leaf
    else
      var top := proof[|proof| - 1];
      var below := Apply(f, leaf, proof[..|proof| - 1]);
      if top.side == Left then f(top.sibling, below) else f(below, top.sibling)
  }

  // ----- one level -----

  function NextLevel<T>(f: (T, T) -> T, level: seq<T>): (next: seq<T>)
    ensures |next| == (|level| + 1) / 2
  {
    seq((|level| + 1) / 2, i requires 0 <= i < (|level| + 1) / 2 =>
      if 2 * i + 1 == |level| then level[2 * i] else f(level[2 * i], level[2 * i + 1]))
  }

  // The sibling recorded at one level, if the node has one.
  function Sibling<T>(level: seq<T>, i: nat): seq<Step<T>>
    requires i < |level|
  {
    if i % 2 == 1 then [Step(Left, level[i - 1])]
    else if i + 1 < |level| then [Step(Right, level[i + 1])]
    else []
  }

  lemma NextLevelSplits<T>(f: (T, T) -> T, level: seq<T>, k: nat)
    requires k % 2 == 0 && k <= |level|
    ensures NextLevel(f, level)[..k / 2] == NextLevel(f, level[..k])
    ensures NextLevel(f, level)[k / 2..] == NextLevel(f, level[k..])
  {
    var next := NextLevel(f, level);
    assert next[..k / 2] == NextLevel(f, level[..k]);
    assert next[k / 2..] == NextLevel(f, level[k..]);
  }

  lemma NextLevelSmall<T>(f: (T, T) -> T, xs: seq<T>, i: nat)
    requires i < |xs| <= 2
    ensures Fold(f, NextLevel(f, xs)) == Fold(f, xs)
    ensures Path(f, xs, i) == Sibling(xs, i) + Path(f, NextLevel(f, xs), i / 2)
  {
    if |xs| == 2 {
      assert xs[..1] == [xs[0]] && xs[1..] == [xs[1]];
    } else {
      assert NextLevel(f, xs) == xs;
    }
  }

  // Building the tree one level at a time gives the recursively split tree.
  lemma {:induction false} LevelKeepsFold<T>(f: (T, T) -> T, xs: seq<T>)
    requires xs != []
    ensures Fold(f, NextLevel(f, xs)) == Fold(f, xs)
    decreases |xs|
  {
    if |xs| <= 2 {
      NextLevelSmall(f, xs, 0);
    } else {
      hide NextLevel, Split, Fold;
      var k, next := Split(|xs|), NextLevel(f, xs);
      SplitHalves(|xs|);
      Splits(f, xs, 0, k);
      Splits(f, next, 0, k / 2);
      NextLevelSplits(f, xs, k);
      LevelKeepsFold(f, xs[..k]);
      LevelKeepsFold(f, xs[k..]);
    }
  }

  lemma SiblingSplits<T>(xs: seq<T>, i: nat, k: nat)
    requires i < |xs| && k % 2 == 0 && 0 < k < |xs|
    ensures i < k ==> Sibling(xs[..k], i) == Sibling(xs, i)
    ensures i >= k ==> Sibling(xs[k..], i - k) == Sibling(xs, i) && (i - k) / 2 == i / 2 - k / 2
  {
  }

  // What recording the sibling of leaf i at one level has to give.
  ghost predicate LevelPath<T>(f: (T, T) -> T, xs: seq<T>, i: nat)
    requires i < |xs|
  {
    Path(f, xs, i) == Sibling(xs, i) + Path(f, NextLevel(f, xs), i / 2)
  }

  lemma LevelPathFromLeft<T>(f: (T, T) -> T, xs: seq<T>, i: nat, k: nat)
    requires |xs| > 2 && k == Split(|xs|) && i < k
    requires LevelPath(f, xs[..k], i)
    ensures LevelPath(f, xs, i)
  {
    hide Path, Fold, Sibling, NextLevel, Split;
    var next := NextLevel(f, xs);
    SplitHalves(|xs|);
    NextLevelSplits(f, xs, k);
    SiblingSplits(xs, i, k);
    LevelKeepsFold(f, xs[k..]);
    var top := [Step(Right, Fold(f, xs[k..]))];
    assert Path(f, xs, i) == Path(f, xs[..k], i) + top by { Splits(f, xs, i, k); }
    assert Path(f, next, i / 2) == Path(f, next[..k / 2], i / 2) + top by { Splits(f, next, i / 2, k / 2); }
  }

  lemma LevelPathFromRight<T>(f: (T, T) -> T, xs: seq<T>, i: nat, k: nat)
    requires |xs| > 2 && k == Split(|xs|) && k <= i < |xs|
    requires LevelPath(f, xs[k..], i - k)
    ensures LevelPath(f, xs, i)
  {
    hide Path, Fold, Sibling, NextLevel, Split;
    var next := NextLevel(f, xs);
    SplitHalves(|xs|);
    NextLevelSplits(f, xs, k);
    SiblingSplits(xs, i, k);
    LevelKeepsFold(f, xs[..k]);
    var top := [Step(Left, Fold(f, xs[..k]))];
    assert Path(f, xs, i) == Path(f, xs[k..], i - k) + top by { Splits(f, xs, i, k); }
    assert Path(f, next, i / 2) == Path(f, next[k / 2..], i / 2 - k / 2) + top by { Splits(f, next, i / 2, k / 2); }
  }

  // Recording one sibling per level gives the recursively defined path.
  lemma {:induction false} LevelKeepsPath<T>(f: (T, T) -> T, xs: seq<T>, i: nat)
    requires i < |xs|
    ensures LevelPath(f, xs, i)
    decreases |xs|
  {
    if |xs| <= 2 {
      NextLevelSmall(f, xs, i);
    } else {
      hide LevelPath;
      var k := Split(|xs|);
      if i < k {
        LevelKeepsPath(f, xs[..k], i);
        LevelPathFromLeft(f, xs, i, k);
      } else {
        LevelKeepsPath(f, xs[k..], i - k);
        LevelPathFromRight(f, xs, i, k);
      }
    }
  }

  // ----- the loops of merkle_root and merkle_proof -----

  method BuildNextLevel<T>(f: (T, T) -> T, level: seq<T>) returns (next: seq<T>)
    ensures next == NextLevel(f, level)
  {
    next := [];
    var offset := 0;
    ghost var whole := NextLevel(f, level);
    while offset < |level|
      invariant 0 <= offset <= |level| + 1 && offset % 2 == 0
      invariant next == whole[..offset / 2]
    {
      var node := if offset + 1 == |level| then level[offset] else f(level[offset], level[offset + 1]);
      assert whole[offset / 2] == node;
      next := next + [node];
      offset := offset + 2;
    }
  }

  method FoldByLevels<T>(f: (T, T) -> T, leaves: seq<T>) returns (root: T)
    requires leaves != []
    ensures root == Fold(f, leaves)
  {
    var level := leaves;
    while |level| > 1
      invariant level != []
      invariant Fold(f, level) == Fold(f, leaves)
      decreases |level|
    {
      LevelKeepsFold(f, level);
      level := BuildNextLevel(f, level);
    }
    root := level[0];
  }

  // One turn of the loop below: the sibling, if any, moves from the path to the proof.
  lemma ProofTurn<T>(f: (T, T) -> T, level: seq<T>, index: nat, proof: seq<Step<T>>)
    requires index < |level|
    ensures proof + Path(f, level, index) == (proof + Sibling(level, index)) + Path(f, NextLevel(f, level), index / 2)
  {
    LevelKeepsPath(f, level, index);
    hide Path, NextLevel, Sibling;
  }

  method PathByLevels<T>(f: (T, T) -> T, leaves: seq<T>, leafIndex: nat) returns (proof: seq<Step<T>>)
    requires leafIndex < |leaves|
    ensures proof == Path(f, leaves, leafIndex)
  {
    hide Path, Fold, NextLevel, Split;
    var level, index := leaves, leafIndex;
    proof := [];
    while |level| > 1
      invariant 0 <= index < |level|
      invariant proof + Path(f, level, index) == Path(f, leaves, leafIndex)
      decreases |level|
    {
      ProofTurn(f, level, index, proof);
      var sibling := if index % 2 != 0 then index - 1 else index + 1;
      ghost var longer := proof + Sibling(level, index);
      if sibling < |level| {
        proof := proof + [Step(if sibling < index then Left else Right, level[sibling])];
      }
      assert proof == longer;
      level := BuildNextLevel(f, level);
      index := index / 2;
    }
    LeafHasNoPath(f, level);
    assert proof + [] == proof;
  }

  lemma LeafHasNoPath<T>(f: (T, T) -> T, xs: seq<T>)
    requires |xs| == 1
    ensures Path(f, xs, 0) == []
  {
  }

  // ----- paths lead to the root, and are short -----

  lemma {:induction false} PathReachesFold<T>(f: (T, T) -> T, xs: seq<T>, i: nat)
    requires i < |xs|
    ensures Apply(f, xs[i], Path(f, xs, i)) == Fold(f, xs)
    decreases |xs|
  {
    if |xs| > 1 {
      var k := Split(|xs|);
      var path := Path(f, xs, i);
      if i < k {
        PathReachesFold(f, xs[..k], i);
        assert path[..|path| - 1] == Path(f, xs[..k], i);
      } else {
        PathReachesFold(f, xs[k..], i - k);
        assert path[..|path| - 1] == Path(f, xs[k..], i - k);
      }
    }
  }

  function Pow2(k: nat): nat {
    if k == 0 then 1 else 2 * Pow2(k - 1)
  }

  // ceil(log2 n)
  function Height(n: nat): (k: nat)
    requires n > 0
    ensures n <= Pow2(k)
    ensures n > 1 ==> k > 0 && Pow2(k - 1) < n
  {
    if n == 1 then 0 else 1 + Height((n + 1) / 2)
  }

  lemma {:induction false} PathLength<T>(f: (T, T) -> T, xs: seq<T>, i: nat)
    requires i < |xs|
    ensures |Path(f, xs, i)| <= Height(|xs|)
    decreases |xs|
  {
    if |xs| > 1 {
      LevelKeepsPath(f, xs, i);
      PathLength(f, NextLevel(f, xs), i / 2);
    }
  }
}
