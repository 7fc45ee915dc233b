/** The v1 Merkle tree over receipt digests: construction, inclusion proofs, and what an
    accepted root or proof commits to. */
module Merkle {
  import opened Bytes
  import opened TreeShape

  const LEAF_DOMAIN := Ascii("NAUTGATE-MERKLE-LEAF-V1\0")
  const NODE_DOMAIN := Ascii("NAUTGATE-MERKLE-NODE-V1\0")

  type ProofItem = Step<Digest>

  function Leaf(h: HashFunction, d: Digest): Digest {
    h(LEAF_DOMAIN + d)
  }

  function NodePreimage(left: Digest, right: Digest): (p: seq<Byte>)
    ensures |p| == 88
  {
    NODE_DOMAIN + left + right
  }

  function Parent(h: HashFunction, left: Digest, right: Digest): Digest {
    h(NodePreimage(left, right))
  }

  function ParentOf(h: HashFunction): (Digest, Digest) -> Digest {
    (left, right) => Parent(h, left, right)
  }

  function Leaves(h: HashFunction, ds: seq<Digest>): (level: seq<Digest>)
    ensures |level| == |ds|
    ensures forall i :: 0 <= i < |ds| ==> level[i] == Leaf(h, ds[i])
  {
    seq(|ds|, i requires 0 <= i < |ds| => Leaf(h, ds[i]))
  }

  // The root of a batch of receipt digests, as the recursively split tree.
  function Root(h: HashFunction, ds: seq<Digest>): Digest
    requires ds != []
  {
    Fold(ParentOf(h), Leaves(h, ds))
  }

  function Proof(h: HashFunction, ds: seq<Digest>, i: nat): seq<ProofItem>
    requires i < |ds|
  {
    Path(ParentOf(h), Leaves(h, ds), i)
  }

  // The root an inclusion proof claims for a receipt digest.
  function ProofRoot(h: HashFunction, d: Digest, proof: seq<ProofItem>): Digest {
    Apply(ParentOf(h), Leaf(h, d), proof)
  }

  // ----- merkle_root, merkle_proof, verify_merkle_proof -----

  datatype MerkleError = EmptyTree | IndexOutside

  datatype MerkleResult<+T> = Ok(value: T) | Err(error: MerkleError)

  method MerkleRoot(h: HashFunction, ds: seq<Digest>) returns (r: MerkleResult<Digest>)
    ensures r == if ds == [] then Err(EmptyTree) else Ok(Root(h, ds))
  {
    if ds == [] {
      return Err(EmptyTree);
    }
    var root := FoldByLevels(ParentOf(h), Leaves(h, ds));
    return Ok(root);
  }

  method MerkleProof(h: HashFunction, ds: seq<Digest>, leafIndex: int) returns (r: MerkleResult<seq<ProofItem>>)
    ensures r == if ds == [] then Err(EmptyTree)
                 else if leafIndex < 0 || leafIndex >= |ds| then Err(IndexOutside)
                 else Ok(Proof(h, ds, leafIndex))
  {
    if ds == [] {
      return Err(EmptyTree);
    }
    if leafIndex < 0 || leafIndex >= |ds| {
      return Err(IndexOutside);
    }
    var proof := PathByLevels(ParentOf(h), Leaves(h, ds), leafIndex);
    return Ok(proof);
  }

  // The offline verifier's walk from a receipt digest to the root it claims.
  method VerifyMerkleProof(h: HashFunction, d: Digest, proof: seq<ProofItem>) returns (root: Digest)
    ensures root == ProofRoot(h, d, proof)
  {
    root := Leaf(h, d);
    for i := 0 to |proof|
      invariant root == ProofRoot(h, d, proof[..i])
    {
      var item := proof[i];
      assert proof[..i + 1][..i] == proof[..i];
      root := if item.side == Left then Parent(h, item.sibling, root) else Parent(h, root, item.sibling);
    }
    assert proof[..|proof|] == proof;
  }

  // ----- completeness -----

  // Every receipt's own proof is accepted, and has at most ceil(log2 n) items.
  lemma ProofReachesRoot(h: HashFunction, ds: seq<Digest>, i: nat)
    requires i < |ds|
    ensures ProofRoot(h, ds[i], Proof(h, ds, i)) == Root(h, ds)
    ensures |Proof(h, ds, i)| <= Height(|ds|)
  {
    PathReachesFold(ParentOf(h), Leaves(h, ds), i);
    PathLength(ParentOf(h), Leaves(h, ds), i);
  }

  // ----- binding -----

  lemma NodePreimageInjective(a: Digest, b: Digest, c: Digest, d: Digest)
    requires NodePreimage(a, b) == NodePreimage(c, d)
    ensures a == c && b == d
  {
    var x, y := NODE_DOMAIN + a + b, NODE_DOMAIN + c + d;
    assert a == x[24..56] == y[24..56] == c;
    assert b == x[56..] == y[56..] == d;
  }

  lemma LeafPreimageInjective(a: Digest, b: Digest)
    requires LEAF_DOMAIN + a == LEAF_DOMAIN + b
    ensures a == b
  {
    assert a == (LEAF_DOMAIN + a)[24..] == (LEAF_DOMAIN + b)[24..] == b;
  }

  lemma LeavesSplit(h: HashFunction, ds: seq<Digest>, k: nat)
    requires k <= |ds|
    ensures Leaves(h, ds)[..k] == Leaves(h, ds[..k])
    ensures Leaves(h, ds)[k..] == Leaves(h, ds[k..])
  {
  }

  lemma RootSplits(h: HashFunction, ds: seq<Digest>)
    requires |ds| > 1
    ensures var k := Split(|ds|); Root(h, ds) == Parent(h, Root(h, ds[..k]), Root(h, ds[k..]))
  {
    hide Fold, Leaves, Split;
    Splits(ParentOf(h), Leaves(h, ds), 0, Split(|ds|));
    LeavesSplit(h, ds, Split(|ds|));
  }

  lemma ProofSplits(h: HashFunction, ds: seq<Digest>, i: nat)
    requires |ds| > 1 && i < |ds|
    ensures var k := Split(|ds|);
      && (i < k ==> Proof(h, ds, i) == Proof(h, ds[..k], i) + [Step(Right, Root(h, ds[k..]))])
      && (i >= k ==> Proof(h, ds, i) == Proof(h, ds[k..], i - k) + [Step(Left, Root(h, ds[..k]))])
  {
    hide Fold, Path, Leaves, Split;
    Splits(ParentOf(h), Leaves(h, ds), i, Split(|ds|));
    LeavesSplit(h, ds, Split(|ds|));
  }

  // The hash input behind the root of a batch: its length tells a leaf from an inner node.
  function TopPreimage(h: HashFunction, ds: seq<Digest>): (p: seq<Byte>)
    requires ds != []
    ensures h(p) == Root(h, ds)
    ensures |p| == if |ds| == 1 then 56 else 88
  {
    if |ds| == 1 then LEAF_DOMAIN + ds[0]
    else
      var k := Split(|ds|);
      RootSplits(h, ds);
      NodePreimage(Root(h, ds[..k]), Root(h, ds[k..]))
  }

  // Two different batches, of any sizes, with one root: computes the collision they exhibit.
  function RootCollision(h: HashFunction, ds: seq<Digest>, es: seq<Digest>): (c: Collision)
    requires ds != [] && es != [] && ds != es
    requires Root(h, ds) == Root(h, es)
    ensures Collides(h, c)
    decreases |ds|
  {
    var x, y := TopPreimage(h, ds), TopPreimage(h, es);
    if |ds| == 1 || |es| == 1 then
      assert x != y by {
        if x == y {
          LeafPreimageInjective(ds[0], es[0]);
        }
      }
      Collision(x, y)
    else if x != y then Collision(x, y)
    else
      var k, m := Split(|ds|), Split(|es|);
      NodePreimageInjective(Root(h, ds[..k]), Root(h, ds[k..]), Root(h, es[..m]), Root(h, es[m..]));
      if ds[..k] != es[..m] then RootCollision(h, ds[..k], es[..m])
      else
        assert ds == ds[..k] + ds[k..] && es == es[..m] + es[m..];
        RootCollision(h, ds[k..], es[m..])
  }

  // The hash input at the top of a proof walk.
  function ProofPreimage(h: HashFunction, d: Digest, proof: seq<ProofItem>): (p: seq<Byte>)
    ensures h(p) == ProofRoot(h, d, proof)
    ensures |p| == if proof == [] then 56 else 88
  {
    if proof == [] then LEAF_DOMAIN + d
    else
      var top := proof[|proof| - 1];
      var below := ProofRoot(h, d, proof[..|proof| - 1]);
      if top.side == Left then NodePreimage(top.sibling, below) else NodePreimage(below, top.sibling)
  }

  // What an accepted proof shows: the position of the digest in the batch, or a collision.
  datatype Inclusion = At(index: nat) | Broken(c: Collision)

  // At the bottom of either tree the preimages differ unless both are the digest's own leaf.
  lemma BottomsDiffer(h: HashFunction, ds: seq<Digest>, d: Digest, proof: seq<ProofItem>)
    requires ds != [] && (|ds| == 1 || proof == []) && !(|ds| == 1 && proof == [] && d == ds[0])
    ensures ProofPreimage(h, d, proof) != TopPreimage(h, ds)
  {
    if |ds| == 1 && proof == [] && LEAF_DOMAIN + d == LEAF_DOMAIN + ds[0] {
      LeafPreimageInjective(d, ds[0]);
    }
  }

  // The half of a batch that a last step on this side comes from, and where the half begins.
  function Half(ds: seq<Digest>, side: Side): (half: seq<Digest>)
    requires |ds| > 1
    ensures 0 < |half| < |ds|
  {
    if side == Left then ds[Split(|ds|)..] else ds[..Split(|ds|)]
  }

  function HalfStart(ds: seq<Digest>, side: Side): nat
    requires |ds| > 1
  {
    if side == Left then Split(|ds|) else 0
  }

  lemma StepIntoHalf(h: HashFunction, ds: seq<Digest>, d: Digest, proof: seq<ProofItem>)
    requires |ds| > 1 && proof != [] && ProofPreimage(h, d, proof) == TopPreimage(h, ds)
    ensures ProofRoot(h, d, proof[..|proof| - 1]) == Root(h, Half(ds, proof[|proof| - 1].side))
  {
    hide ProofRoot, Root, Split, ProofPreimage, TopPreimage;
    LastStep(h, ds, d, proof);
  }

  lemma FoundInHalf(h: HashFunction, ds: seq<Digest>, d: Digest, proof: seq<ProofItem>, i: nat)
    requires |ds| > 1 && proof != [] && ProofPreimage(h, d, proof) == TopPreimage(h, ds)
    requires
      var half := Half(ds, proof[|proof| - 1].side);
      i < |half| && half[i] == d && proof[..|proof| - 1] == Proof(h, half, i)
    ensures
      var j := HalfStart(ds, proof[|proof| - 1].side) + i;
      j < |ds| && ds[j] == d && proof == Proof(h, ds, j)
  {
    hide ProofRoot, Root, Split, Proof, ProofPreimage, TopPreimage;
    LastStep(h, ds, d, proof);
    ProofSplits(h, ds, HalfStart(ds, proof[|proof| - 1].side) + i);
    assert proof == proof[..|proof| - 1] + [proof[|proof| - 1]];
  }

  // Walks an accepted proof down from the root of the batch. Unless a collision is exhibited,
  // the digest is in the batch and the proof is exactly the generated one.
  function Locate(h: HashFunction, ds: seq<Digest>, d: Digest, proof: seq<ProofItem>): (r: Inclusion)
    requires ds != []
    requires ProofRoot(h, d, proof) == Root(h, ds)
    ensures r.At? ==> r.index < |ds| && ds[r.index] == d && proof == Proof(h, ds, r.index)
    ensures r.Broken? ==> Collides(h, r.c)
    decreases |ds|
  {
    var x, y := ProofPreimage(h, d, proof), TopPreimage(h, ds);
    if |ds| == 1 && proof == [] && d == ds[0] then At(0)
    else if |ds| == 1 || proof == [] then
      BottomsDiffer(h, ds, d, proof);
      Broken(Collision(x, y))
    else if x != y then Broken(Collision(x, y))
    else
      var side := proof[|proof| - 1].side;
      StepIntoHalf(h, ds, d, proof);
      match Locate(h, Half(ds, side), d, proof[..|proof| - 1])
      case Broken(c) => Broken(c)
      case At(i) =>
        FoundInHalf(h, ds, d, proof, i);
        At(HalfStart(ds, side) + i)
  }

  // With equal top preimages, the last proof step is the root of the other half.
  lemma LastStep(h: HashFunction, ds: seq<Digest>, d: Digest, proof: seq<ProofItem>)
    requires |ds| > 1 && proof != []
    requires ProofPreimage(h, d, proof) == TopPreimage(h, ds)
    ensures var k, rest, top := Split(|ds|), proof[..|proof| - 1], proof[|proof| - 1];
      if top.side == Left then top.sibling == Root(h, ds[..k]) && ProofRoot(h, d, rest) == Root(h, ds[k..])
      else top.sibling == Root(h, ds[k..]) && ProofRoot(h, d, rest) == Root(h, ds[..k])
  {
    hide ProofRoot, Root, Split, NodePreimage, Leaf, Parent;
    var k, rest, top := Split(|ds|), proof[..|proof| - 1], proof[|proof| - 1];
    var below := ProofRoot(h, d, rest);
    if top.side == Left {
      NodePreimageInjective(top.sibling, below, Root(h, ds[..k]), Root(h, ds[k..]));
    } else {
      NodePreimageInjective(below, top.sibling, Root(h, ds[..k]), Root(h, ds[k..]));
    }
  }
}
