/** The Merkle root over a batch of log entries. */
module MerkleTree {
  import opened Bytes
  import Hex

  // ---------------------------------------------------------------- reference tree

  function Pow2(k: nat): (p: nat)
    ensures p >= 1
  {
    if k == 0 then 1 else 2 * Pow2(k - 1)
  }

  // The number of levels above the leaves.
  function Depth(n: nat): nat {
    if n <= 1 then 0 else 1 + Depth((n + 1) / 2)
  }

  lemma {:induction false} DepthIsLeast(n: nat)
    requires n > 0
    ensures n <= Pow2(Depth(n))
    ensures Depth(n) > 0 ==> Pow2(Depth(n) - 1) < n
  {
    if n > 1 {
      DepthIsLeast((n + 1) / 2);
    }
  }

  // The two halves below a node at height k.  When the leaves fit in one half the other
  // half is a copy of it: "duplicate the last one if odd", seen from the top.
  function Halves(leaves: seq<Bytes>, k: nat): (p: (seq<Bytes>, seq<Bytes>))
    requires k > 0 && 0 < |leaves| <= Pow2(k)
    ensures 0 < |p.0| <= Pow2(k - 1) && 0 < |p.1| <= Pow2(k - 1)
    ensures forall b :: b in p.0 || b in p.1 ==> b in leaves
  {
    var half := Pow2(k - 1);
    if |leaves| <= half then (leaves, leaves) else (leaves[..half], leaves[half..])
  }

  // The digest of the node at height k over the given leaves, defined from the root down.
  function Node(h: HashFunction, leaves: seq<Bytes>, k: nat): Bytes
    requires 0 < |leaves| <= Pow2(k)
    decreases k
  {
    if k == 0 then leaves[0] else h(Preimage(h, leaves, k))
  }

  function Preimage(h: HashFunction, leaves: seq<Bytes>, k: nat): Bytes
    requires k > 0 && 0 < |leaves| <= Pow2(k)
    decreases k, 0
  {
    var (l, r) := Halves(leaves, k);
    Node(h, l, k - 1) + Node(h, r, k - 1)
  }

  function MerkleRoot(h: HashFunction, leaves: seq<Bytes>): Bytes
    requires |leaves| > 0
  {
    DepthIsLeast(|leaves|);
    Node(h, leaves, Depth(|leaves|))
  }

  // The full row of 2^k leaves that the duplication rule makes of a shorter row.
  function Padded(leaves: seq<Bytes>, k: nat): (row: seq<Bytes>)
    requires 0 < |leaves| <= Pow2(k)
    ensures |row| == Pow2(k)
    decreases k
  {
    if k == 0 then leaves
    else
      var (l, r) := Halves(leaves, k);
      Padded(l, k - 1) + Padded(r, k - 1)
  }

  // ---------------------------------------------------------------- the level-by-level loop

  // One level up: hash neighbouring pairs, pairing an odd last element with itself.
  function ParentAt(h: HashFunction, level: seq<Bytes>, j: nat): Bytes
    requires 2 * j < |level|
  {
    h(level[2 * j] + (if 2 * j + 1 < |level| then level[2 * j + 1] else level[2 * j]))
  }

  function Parents(h: HashFunction, level: seq<Bytes>): (up: seq<Bytes>)
    ensures |up| == (|level| + 1) / 2
  {
    seq((|level| + 1) / 2, j requires 0 <= j < (|level| + 1) / 2 => ParentAt(h, level, j))
  }

  lemma HalvesOfParents(h: HashFunction, level: seq<Bytes>, k: nat)
    requires k > 0 && 0 < |level| <= Pow2(k + 1)
    ensures 0 < |Parents(h, level)| <= Pow2(k)
    ensures Halves(Parents(h, level), k) == (Parents(h, Halves(level, k + 1).0), Parents(h, Halves(level, k + 1).1))
  {
    var (l, r) := Halves(level, k + 1);
    var (lu, ru) := Halves(Parents(h, level), k);
    assert Parents(h, l) == lu;
    assert Parents(h, r) == ru;
  }

  // Hashing one level does not change the tree above it.
  lemma {:induction false} ParentsKeepNode(h: HashFunction, level: seq<Bytes>, k: nat)
    requires 0 < |level| <= Pow2(k + 1)
    ensures |Parents(h, level)| <= Pow2(k)
    ensures Node(h, level, k + 1) == Node(h, Parents(h, level), k)
  {
    var up := Parents(h, level);
    if k == 0 {
      assert up == [ParentAt(h, level, 0)];
      var (l, r) := Halves(level, 1);
      assert Node(h, l, 0) == level[0];
      assert Node(h, r, 0) == if |level| == 2 then level[1] else level[0];
    } else {
      HalvesOfParents(h, level, k);
      ParentsKeepNode(h, Halves(level, k + 1).0, k - 1);
      ParentsKeepNode(h, Halves(level, k + 1).1, k - 1);
    }
  }

  lemma ParentsKeepRoot(h: HashFunction, level: seq<Bytes>)
    requires |level| > 1
    ensures MerkleRoot(h, level) == MerkleRoot(h, Parents(h, level))
  {
    DepthIsLeast(|level|);
    ParentsKeepNode(h, level, Depth(|level|) - 1);
  }

  // What the batch knows of an entry: its stored hash, empty when none is stored yet,
  // and the byte string its canonical form hashes.
  datatype Entry = Entry(dataHash: string, hashable: Bytes)

  function EntryHash(h: HashFunction, e: Entry): string {
    if e.dataHash != "" then e.dataHash else Hex.ToHex(h(e.hashable))
  }

  function Leaves(h: HashFunction, entries: seq<Entry>): (leaves: seq<Bytes>)
    ensures |leaves| == |entries|
  {
    seq(|entries|, i requires 0 <= i < |entries| => Hex.FromHexPrefix(EntryHash(h, entries[i])))
  }

  function BatchHash(h: HashFunction, entries: seq<Entry>): string {
    Hex.ToHex(if entries == [] then h([]) else MerkleRoot(h, Leaves(h, entries)))
  }

  method ComputeBatchHash(h: HashFunction, entries: seq<Entry>) returns (root: string)
    ensures root == BatchHash(h, entries)
  {
    var leaves := Leaves(h, entries);
    if |leaves| == 0 {
      return Hex.ToHex(h([]));
    }
    while |leaves| > 1
      invariant |leaves| > 0
      invariant MerkleRoot(h, leaves) == MerkleRoot(h, Leaves(h, entries))
      decreases |leaves|
    {
      var next: seq<Bytes> := [];
      var i := 0;
      while i < |leaves|
        invariant i == 2 * |next|
        invariant |next| <= |Parents(h, leaves)|
        invariant next == Parents(h, leaves)[..|next|]
      {
        var left := leaves[i];
        var right := if i + 1 < |leaves| then leaves[i + 1] else left;
        assert h(left + right) == Parents(h, leaves)[|next|];
        next := next + [h(left + right)];
        i := i + 2;
      }
      assert next == Parents(h, leaves);
      ParentsKeepRoot(h, leaves);
      leaves := next;
    }
    root := Hex.ToHex(leaves[0]);
  }

  // ---------------------------------------------------------------- binding

  // Walks two trees of equal height in step and returns the first two different node
  // preimages; meaningful when the trees have the same root.
  function Witness(h: HashFunction, a: seq<Bytes>, b: seq<Bytes>, k: nat): (Bytes, Bytes)
    requires 0 < |a| <= Pow2(k) && 0 < |b| <= Pow2(k)
    decreases k
  {
    if k == 0 then ([], [])
    else if Preimage(h, a, k) != Preimage(h, b, k) then (Preimage(h, a, k), Preimage(h, b, k))
    else
      var (la, ra) := Halves(a, k);
      var (lb, rb) := Halves(b, k);
      var left := Witness(h, la, lb, k - 1);
      if left.0 != left.1 then left else Witness(h, ra, rb, k - 1)
  }

  ghost predicate AllDigests(leaves: seq<Bytes>) {
    forall b :: b in leaves ==> |b| == 32
  }

  lemma {:induction false} NodeIsDigest(h: HashFunction, leaves: seq<Bytes>, k: nat)
    requires 0 < |leaves| <= Pow2(k) && AllDigests(leaves)
    ensures |Node(h, leaves, k)| == 32
  {
    if k == 0 {
      assert leaves[0] in leaves;
    }
  }

  lemma PreimageLength(h: HashFunction, leaves: seq<Bytes>, k: nat)
    requires k > 0 && 0 < |leaves| <= Pow2(k) && AllDigests(leaves)
    ensures |Preimage(h, leaves, k)| == 64
  {
    var (l, r) := Halves(leaves, k);
    NodeIsDigest(h, l, k - 1);
    NodeIsDigest(h, r, k - 1);
  }

  lemma SplitEqual(l: Bytes, r: Bytes, l': Bytes, r': Bytes)
    requires |l| == |l'| && l + r == l' + r'
    ensures l == l' && r == r'
  {
    assert l == (l + r)[..|l|] && l' == (l' + r')[..|l|];
    assert r == (l + r)[|l|..] && r' == (l' + r')[|l|..];
  }

  // Two rows are bound when they pad to the same full row, or the walk finds two node
  // preimages of 64 bytes that hash alike.
  ghost predicate Bound(h: HashFunction, a: seq<Bytes>, b: seq<Bytes>, k: nat)
    requires 0 < |a| <= Pow2(k) && 0 < |b| <= Pow2(k)
  {
    var w := Witness(h, a, b, k);
    if w.0 == w.1 then Padded(a, k) == Padded(b, k)
    else IsCollision(h, w) && |w.0| == 64 && |w.1| == 64
  }

  lemma BoundHalves(h: HashFunction, a: seq<Bytes>, b: seq<Bytes>, k: nat)
    requires k > 0 && 0 < |a| <= Pow2(k) && 0 < |b| <= Pow2(k)
    requires Preimage(h, a, k) == Preimage(h, b, k)
    requires Bound(h, Halves(a, k).0, Halves(b, k).0, k - 1)
    requires Bound(h, Halves(a, k).1, Halves(b, k).1, k - 1)
    ensures Bound(h, a, b, k)
  {}

  lemma BoundLeaf(h: HashFunction, a: seq<Bytes>, b: seq<Bytes>)
    requires 0 < |a| <= Pow2(0) && 0 < |b| <= Pow2(0)
    requires Node(h, a, 0) == Node(h, b, 0)
    ensures Bound(h, a, b, 0)
  {
    assert a == [a[0]] && b == [b[0]];
  }

  lemma BoundHere(h: HashFunction, a: seq<Bytes>, b: seq<Bytes>, k: nat)
    requires k > 0 && 0 < |a| <= Pow2(k) && 0 < |b| <= Pow2(k)
    requires AllDigests(a) && AllDigests(b)
    requires Node(h, a, k) == Node(h, b, k) && Preimage(h, a, k) != Preimage(h, b, k)
    ensures Bound(h, a, b, k)
  {
    PreimageLength(h, a, k);
    PreimageLength(h, b, k);
  }

  lemma HalvesAreDigests(a: seq<Bytes>, k: nat)
    requires k > 0 && 0 < |a| <= Pow2(k) && AllDigests(a)
    ensures AllDigests(Halves(a, k).0) && AllDigests(Halves(a, k).1)
  {}

  // Trees of equal height with one root are bound.
  lemma {:induction false} NodeBinding(h: HashFunction, a: seq<Bytes>, b: seq<Bytes>, k: nat)
    requires 0 < |a| <= Pow2(k) && 0 < |b| <= Pow2(k)
    requires AllDigests(a) && AllDigests(b)
    requires Node(h, a, k) == Node(h, b, k)
    ensures Bound(h, a, b, k)
    decreases k, 2
  {
    if k == 0 {
      BoundLeaf(h, a, b);
    } else if Preimage(h, a, k) != Preimage(h, b, k) {
      BoundHere(h, a, b, k);
    } else {
      BindHalves(h, a, b, k);
    }
  }

  lemma {:induction false} BindParts(h: HashFunction, la: seq<Bytes>, ra: seq<Bytes>, lb: seq<Bytes>, rb: seq<Bytes>, k: nat)
    requires 0 < |la| <= Pow2(k) && 0 < |ra| <= Pow2(k) && AllDigests(la) && AllDigests(ra)
    requires 0 < |lb| <= Pow2(k) && 0 < |rb| <= Pow2(k) && AllDigests(lb) && AllDigests(rb)
    requires Node(h, la, k) + Node(h, ra, k) == Node(h, lb, k) + Node(h, rb, k)
    ensures Bound(h, la, lb, k) && Bound(h, ra, rb, k)
    decreases k, 3
  {
    HalvesAgree(h, la, ra, lb, rb, k);
    NodeBinding(h, la, lb, k);
    NodeBinding(h, ra, rb, k);
  }

  lemma {:induction false} BindHalves(h: HashFunction, a: seq<Bytes>, b: seq<Bytes>, k: nat)
    requires k > 0 && 0 < |a| <= Pow2(k) && 0 < |b| <= Pow2(k)
    requires AllDigests(a) && AllDigests(b)
    requires Preimage(h, a, k) == Preimage(h, b, k)
    ensures Bound(h, a, b, k)
    decreases k, 1
  {
    HalvesAreDigests(a, k);
    HalvesAreDigests(b, k);
    BindParts(h, Halves(a, k).0, Halves(a, k).1, Halves(b, k).0, Halves(b, k).1, k - 1);
    BoundHalves(h, a, b, k);
  }

  // Equal pairs of child digests are equal digest by digest.
  lemma HalvesAgree(h: HashFunction, la: seq<Bytes>, ra: seq<Bytes>, lb: seq<Bytes>, rb: seq<Bytes>, k: nat)
    requires 0 < |la| <= Pow2(k) && 0 < |ra| <= Pow2(k) && AllDigests(la)
    requires 0 < |lb| <= Pow2(k) && 0 < |rb| <= Pow2(k) && AllDigests(lb)
    requires Node(h, la, k) + Node(h, ra, k) == Node(h, lb, k) + Node(h, rb, k)
    ensures Node(h, la, k) == Node(h, lb, k) && Node(h, ra, k) == Node(h, rb, k)
  {
    NodeIsDigest(h, la, k);
    NodeIsDigest(h, lb, k);
    SplitEqual(Node(h, la, k), Node(h, ra, k), Node(h, lb, k), Node(h, rb, k));
  }

  lemma HalvesEqual(x: seq<Bytes>, y: seq<Bytes>, u: seq<Bytes>, v: seq<Bytes>)
    requires |x| == |u| && x + y == u + v
    ensures x == u && y == v
  {
    assert x == (x + y)[..|x|] && u == (u + v)[..|x|];
    assert y == (x + y)[|x|..] && v == (u + v)[|x|..];
  }

  // Padded alike, the halves are padded alike.
  lemma HalvesPadAlike(a: seq<Bytes>, b: seq<Bytes>, k: nat)
    requires k > 0 && 0 < |a| <= Pow2(k) && 0 < |b| <= Pow2(k) && Padded(a, k) == Padded(b, k)
    ensures Padded(Halves(a, k).0, k - 1) == Padded(Halves(b, k).0, k - 1)
    ensures Padded(Halves(a, k).1, k - 1) == Padded(Halves(b, k).1, k - 1)
  {
    PaddedIs(a, k);
    PaddedIs(b, k);
    HalvesEqual(Padded(Halves(a, k).0, k - 1), Padded(Halves(a, k).1, k - 1),
                Padded(Halves(b, k).0, k - 1), Padded(Halves(b, k).1, k - 1));
  }

  lemma {:induction false} PaddedDeterminesNode(h: HashFunction, a: seq<Bytes>, b: seq<Bytes>, k: nat)
    requires 0 < |a| <= Pow2(k) && 0 < |b| <= Pow2(k)
    requires Padded(a, k) == Padded(b, k)
    ensures Node(h, a, k) == Node(h, b, k)
  {
    if k > 0 {
      HalvesPadAlike(a, b, k);
      PaddedDeterminesNode(h, Halves(a, k).0, Halves(b, k).0, k - 1);
      PaddedDeterminesNode(h, Halves(a, k).1, Halves(b, k).1, k - 1);
    }
  }

  lemma {:induction false} PaddedExtends(leaves: seq<Bytes>, k: nat)
    requires 0 < |leaves| <= Pow2(k)
    ensures leaves <= Padded(leaves, k)
  {
    if k > 0 {
      var (l, r) := Halves(leaves, k);
      PaddedExtends(l, k - 1);
      PaddedExtends(r, k - 1);
    }
  }

  // Lists of one height share a root exactly when they pad to the same row, up to an
  // explicit collision of the digest function.
  lemma RootsOfOneHeight(h: HashFunction, a: seq<Bytes>, b: seq<Bytes>)
    requires |a| > 0 && |b| > 0 && AllDigests(a) && AllDigests(b)
    requires Depth(|a|) == Depth(|b|)
    ensures var k := Depth(|a|);
      && |a| <= Pow2(k) && |b| <= Pow2(k)
      && (Padded(a, k) == Padded(b, k) ==> MerkleRoot(h, a) == MerkleRoot(h, b))
      && (MerkleRoot(h, a) == MerkleRoot(h, b) ==>
            || Padded(a, k) == Padded(b, k)
            || IsCollision(h, Witness(h, a, b, k)))
  {
    var k := Depth(|a|);
    DepthIsLeast(|a|);
    DepthIsLeast(|b|);
    if Padded(a, k) == Padded(b, k) {
      PaddedDeterminesNode(h, a, b, k);
    }
    if MerkleRoot(h, a) == MerkleRoot(h, b) {
      NodeBinding(h, a, b, k);
    }
  }

  // The row of the tree from which height k remains to the root.
  function LiftTo(h: HashFunction, leaves: seq<Bytes>, k: nat): (row: seq<Bytes>)
    requires |leaves| > 0
    ensures |row| > 0
    decreases Depth(|leaves|)
  {
    if Depth(|leaves|) <= k then leaves else LiftTo(h, Parents(h, leaves), k)
  }

  lemma {:induction false} LiftKeepsRoot(h: HashFunction, leaves: seq<Bytes>, k: nat)
    requires |leaves| > 0 && AllDigests(leaves) && k <= Depth(|leaves|)
    ensures var row := LiftTo(h, leaves, k);
      MerkleRoot(h, row) == MerkleRoot(h, leaves) && AllDigests(row) && Depth(|row|) == k
    decreases Depth(|leaves|)
  {
    if Depth(|leaves|) > k {
      ParentsKeepRoot(h, leaves);
      LiftKeepsRoot(h, Parents(h, leaves), k);
    }
  }

  function Min(a: nat, b: nat): nat {
    if a < b then a else b
  }

  // What agreement of two rows at height k says about two roots.
  ghost predicate RootsMatch(h: HashFunction, rootA: Bytes, rootB: Bytes, p: seq<Bytes>, q: seq<Bytes>, k: nat)
    requires 0 < |p| <= Pow2(k) && 0 < |q| <= Pow2(k)
  {
    && (Padded(p, k) == Padded(q, k) ==> rootA == rootB)
    && (rootA == rootB ==> Padded(p, k) == Padded(q, k) || IsCollision(h, Witness(h, p, q, k)))
  }

  lemma RowsMatch(h: HashFunction, p: seq<Bytes>, q: seq<Bytes>, k: nat)
    requires |p| > 0 && |q| > 0 && AllDigests(p) && AllDigests(q)
    requires Depth(|p|) == k && Depth(|q|) == k
    ensures |p| <= Pow2(k) && |q| <= Pow2(k) && RootsMatch(h, MerkleRoot(h, p), MerkleRoot(h, q), p, q, k)
  {
    RootsOfOneHeight(h, p, q);
  }

  // What two roots say, whatever the lengths: lift the taller tree to the height of the other
  // one; the roots agree exactly when the two rows pad to the same row, up to an explicit
  // collision.
  lemma RootsAgreeIff(h: HashFunction, a: seq<Bytes>, b: seq<Bytes>)
    requires |a| > 0 && |b| > 0 && AllDigests(a) && AllDigests(b)
    ensures var k := Min(Depth(|a|), Depth(|b|));
      var (p, q) := (LiftTo(h, a, k), LiftTo(h, b, k));
      0 < |p| <= Pow2(k) && 0 < |q| <= Pow2(k) && RootsMatch(h, MerkleRoot(h, a), MerkleRoot(h, b), p, q, k)
  {
    var k := Min(Depth(|a|), Depth(|b|));
    LiftedMatch(h, a, b, k);
  }

  lemma LiftedMatch(h: HashFunction, a: seq<Bytes>, b: seq<Bytes>, k: nat)
    requires |a| > 0 && |b| > 0 && AllDigests(a) && AllDigests(b) && k <= Depth(|a|) && k <= Depth(|b|)
    ensures var (p, q) := (LiftTo(h, a, k), LiftTo(h, b, k));
      0 < |p| <= Pow2(k) && 0 < |q| <= Pow2(k) && RootsMatch(h, MerkleRoot(h, a), MerkleRoot(h, b), p, q, k)
  {
    LiftKeepsRoot(h, a, k);
    LiftKeepsRoot(h, b, k);
    RowsMatch(h, LiftTo(h, a, k), LiftTo(h, b, k), k);
  }

  // A batch and its row of parents are such a pair, so that a root alone does not tell the
  // length.
  lemma ParentsShareRoot(h: HashFunction, leaves: seq<Bytes>)
    requires |leaves| > 1
    ensures MerkleRoot(h, leaves) == MerkleRoot(h, Parents(h, leaves)) && |Parents(h, leaves)| < |leaves|
  {
    ParentsKeepRoot(h, leaves);
  }

  // The binding theorem: equally long batches with one root are equal, or the walk over
  // their trees exhibits two different 64-byte inputs with one digest.
  lemma RootBinds(h: HashFunction, a: seq<Bytes>, b: seq<Bytes>)
    requires |a| == |b| > 0 && AllDigests(a) && AllDigests(b)
    requires MerkleRoot(h, a) == MerkleRoot(h, b)
    ensures var k := Depth(|a|);
      && |a| <= Pow2(k)
      && (a == b || var w := Witness(h, a, b, k); IsCollision(h, w) && |w.0| == |w.1| == 64)
  {
    var k := Depth(|a|);
    DepthIsLeast(|a|);
    NodeBinding(h, a, b, k);
    PaddedExtends(a, k);
    PaddedExtends(b, k);
  }

  // Equal length is needed: an odd batch and the batch with its last leaf repeated share
  // a root for every digest function,
  lemma RepeatedLastLeafKeepsRoot(h: HashFunction, leaves: seq<Bytes>)
    requires |leaves| > 1 && |leaves| % 2 == 1
    ensures MerkleRoot(h, leaves) == MerkleRoot(h, leaves + [leaves[|leaves| - 1]])
  {
    var longer := leaves + [leaves[|leaves| - 1]];
    ParentsKeepRoot(h, leaves);
    ParentsKeepRoot(h, longer);
    forall j | 0 <= j < |Parents(h, leaves)| ensures Parents(h, leaves)[j] == Parents(h, longer)[j] {
      PairKept(h, leaves, j);
    }
    assert Parents(h, leaves) == Parents(h, longer);
  }

  lemma PairKept(h: HashFunction, leaves: seq<Bytes>, j: nat)
    requires |leaves| % 2 == 1 && 2 * j < |leaves|
    ensures ParentAt(h, leaves, j) == ParentAt(h, leaves + [leaves[|leaves| - 1]], j)
  {}

  // Two neighbouring leaves of the row padded to height k + 1, as they are hashed.
  function PairAt(leaves: seq<Bytes>, k: nat, i: nat): Bytes
    requires 0 < |leaves| <= Pow2(k + 1) && i < Pow2(k)
  {
    Padded(leaves, k + 1)[2 * i] + Padded(leaves, k + 1)[2 * i + 1]
  }

  // The digests of neighbouring pairs of a row of 2 * n leaves.
  function HashedPairs(h: HashFunction, row: seq<Bytes>, n: nat): (up: seq<Bytes>)
    requires |row| == 2 * n
    ensures |up| == n
  {
    seq(n, i requires 0 <= i < n => h(row[2 * i] + row[2 * i + 1]))
  }

  lemma PairsSplit(h: HashFunction, x: seq<Bytes>, y: seq<Bytes>, n: nat)
    requires |x| == |y| == 2 * n
    ensures HashedPairs(h, x + y, 2 * n) == HashedPairs(h, x, n) + HashedPairs(h, y, n)
  {
    var (all, both) := (HashedPairs(h, x + y, 2 * n), HashedPairs(h, x, n) + HashedPairs(h, y, n));
    forall i | 0 <= i < 2 * n ensures all[i] == both[i] {
      if i >= n {
        assert (x + y)[2 * i] == y[2 * (i - n)] && (x + y)[2 * i + 1] == y[2 * (i - n) + 1];
      }
    }
  }

  // The padded row of parents holds the digests of the pairs of the padded row.
  ghost predicate PairedUp(h: HashFunction, leaves: seq<Bytes>, k: nat)
    requires 0 < |leaves| <= Pow2(k + 1)
  {
    && 0 < |Parents(h, leaves)| <= Pow2(k)
    && Padded(Parents(h, leaves), k) == HashedPairs(h, Padded(leaves, k + 1), Pow2(k))
  }

  lemma {:induction false} PaddedParents(h: HashFunction, leaves: seq<Bytes>, k: nat)
    requires 0 < |leaves| <= Pow2(k + 1)
    ensures PairedUp(h, leaves, k)
    decreases k
  {
    if k == 0 {
      PaddedPair(h, leaves);
    } else {
      var (l, r) := Halves(leaves, k + 1);
      PaddedParents(h, l, k - 1);
      PaddedParents(h, r, k - 1);
      PaddedParentsStep(h, leaves, l, r, k);
    }
  }

  lemma PaddedParentsStep(h: HashFunction, leaves: seq<Bytes>, l: seq<Bytes>, r: seq<Bytes>, k: nat)
    requires k > 0 && 0 < |leaves| <= Pow2(k + 1) && (l, r) == Halves(leaves, k + 1)
    requires PairedUp(h, l, k - 1) && PairedUp(h, r, k - 1)
    ensures PairedUp(h, leaves, k)
  {
    HalvesOfParents(h, leaves, k);
    PaddedIs(leaves, k + 1);
    PaddedIs(Parents(h, leaves), k);
    PairsSplit(h, Padded(l, k), Padded(r, k), Pow2(k - 1));
  }

  lemma PaddedPair(h: HashFunction, leaves: seq<Bytes>)
    requires 0 < |leaves| <= Pow2(1)
    ensures PairedUp(h, leaves, 0)
  {
    assert Padded(leaves, 1) == [leaves[0], if |leaves| == 2 then leaves[1] else leaves[0]];
    assert Parents(h, leaves) == [ParentAt(h, leaves, 0)];
  }

  lemma PaddedIs(leaves: seq<Bytes>, k: nat)
    requires k > 0 && 0 < |leaves| <= Pow2(k)
    ensures Padded(leaves, k) == Padded(Halves(leaves, k).0, k - 1) + Padded(Halves(leaves, k).1, k - 1)
  {}

  ghost predicate PairsAgree(a: seq<Bytes>, b: seq<Bytes>, k: nat)
    requires 0 < |a| <= Pow2(k + 1) && 0 < |b| <= Pow2(k + 1)
  {
    forall i :: 0 <= i < Pow2(k) ==> PairAt(a, k, i) == PairAt(b, k, i)
  }

  ghost predicate PairsCollide(h: HashFunction, a: seq<Bytes>, b: seq<Bytes>, k: nat)
    requires 0 < |a| <= Pow2(k + 1) && 0 < |b| <= Pow2(k + 1)
  {
    exists i :: 0 <= i < Pow2(k) && IsCollision(h, (PairAt(a, k, i), PairAt(b, k, i)))
  }

  lemma PairsAgreePads(h: HashFunction, a: seq<Bytes>, b: seq<Bytes>, k: nat)
    requires 0 < |a| <= Pow2(k + 1) && 0 < |b| <= Pow2(k + 1)
    requires |Parents(h, a)| <= Pow2(k) && |Parents(h, b)| <= Pow2(k)
    ensures PairsAgree(a, b, k) ==> Padded(Parents(h, a), k) == Padded(Parents(h, b), k)
    ensures Padded(Parents(h, a), k) == Padded(Parents(h, b), k) ==> PairsAgree(a, b, k) || PairsCollide(h, a, b, k)
  {
    PaddedParents(h, a, k);
    PaddedParents(h, b, k);
    PairedRows(h, a, b, k, Padded(a, k + 1), Padded(b, k + 1));
  }

  lemma PairedRows(h: HashFunction, a: seq<Bytes>, b: seq<Bytes>, k: nat, x: seq<Bytes>, y: seq<Bytes>)
    requires 0 < |a| <= Pow2(k + 1) && 0 < |b| <= Pow2(k + 1) && x == Padded(a, k + 1) && y == Padded(b, k + 1)
    ensures var n := Pow2(k);
      && (PairsAgree(a, b, k) ==> HashedPairs(h, x, n) == HashedPairs(h, y, n))
      && (HashedPairs(h, x, n) == HashedPairs(h, y, n) ==> PairsAgree(a, b, k) || PairsCollide(h, a, b, k))
  {
    var (p, q) := (HashedPairs(h, x, Pow2(k)), HashedPairs(h, y, Pow2(k)));
    forall i | 0 <= i < Pow2(k) ensures p[i] == h(PairAt(a, k, i)) && q[i] == h(PairAt(b, k, i)) {}
    if p == q && !PairsAgree(a, b, k) {
      var i :| 0 <= i < Pow2(k) && PairAt(a, k, i) != PairAt(b, k, i);
      assert p[i] == q[i];
    }
  }

  // What agreement of the pairs says about two roots.
  ghost predicate PairsMatch(h: HashFunction, rootA: Bytes, rootB: Bytes, a: seq<Bytes>, b: seq<Bytes>, k: nat)
    requires 0 < |a| <= Pow2(k + 1) && 0 < |b| <= Pow2(k + 1)
    requires |Parents(h, a)| <= Pow2(k) && |Parents(h, b)| <= Pow2(k)
  {
    && (PairsAgree(a, b, k) ==> rootA == rootB)
    && (rootA == rootB ==>
          || PairsAgree(a, b, k)
          || IsCollision(h, Witness(h, Parents(h, a), Parents(h, b), k))
          || PairsCollide(h, a, b, k))
  }

  lemma PairsMatchAt(h: HashFunction, a: seq<Bytes>, b: seq<Bytes>, k: nat, rootA: Bytes, rootB: Bytes)
    requires 0 < |a| <= Pow2(k + 1) && 0 < |b| <= Pow2(k + 1)
    requires 0 < |Parents(h, a)| <= Pow2(k) && 0 < |Parents(h, b)| <= Pow2(k)
    requires RootsMatch(h, rootA, rootB, Parents(h, a), Parents(h, b), k)
    ensures PairsMatch(h, rootA, rootB, a, b, k)
  {
    PairsAgreePads(h, a, b, k);
  }

  lemma LiftOne(h: HashFunction, a: seq<Bytes>, k: nat)
    requires |a| > 0 && Depth(|a|) == k + 1
    ensures |a| <= Pow2(k + 1) && 0 < |Parents(h, a)| <= Pow2(k)
    ensures Depth(|Parents(h, a)|) == k && AllDigests(Parents(h, a))
    ensures MerkleRoot(h, a) == MerkleRoot(h, Parents(h, a))
  {
    DepthIsLeast(|a|);
    ParentsKeepRoot(h, a);
    DepthIsLeast(|Parents(h, a)|);
  }

  // For leaves of any length: lists of one height k + 1 share a root exactly when their padded
  // rows agree pair by pair as concatenations, up to an explicit collision.
  lemma PairsAgreeIff(h: HashFunction, a: seq<Bytes>, b: seq<Bytes>, k: nat)
    requires |a| > 0 && |b| > 0 && Depth(|a|) == k + 1 && Depth(|b|) == k + 1
    ensures |a| <= Pow2(k + 1) && |b| <= Pow2(k + 1)
    ensures |Parents(h, a)| <= Pow2(k) && |Parents(h, b)| <= Pow2(k)
    ensures PairsMatch(h, MerkleRoot(h, a), MerkleRoot(h, b), a, b, k)
  {
    LiftOne(h, a, k);
    LiftOne(h, b, k);
    RowsMatch(h, Parents(h, a), Parents(h, b), k);
    PairsMatchAt(h, a, b, k, MerkleRoot(h, a), MerkleRoot(h, b));
  }

  // So for the binding of leaves 32-byte leaves are needed: moving bytes across a leaf
  // boundary keeps the root.
  lemma ShiftedBoundaryKeepsRoot(h: HashFunction, left: Bytes, middle: byte, right: Bytes)
    ensures MerkleRoot(h, [left + [middle], right]) == MerkleRoot(h, [left, [middle] + right])
  {
    var a := [left + [middle], right];
    var b := [left, [middle] + right];
    ParentsKeepRoot(h, a);
    ParentsKeepRoot(h, b);
    assert (left + [middle]) + right == left + ([middle] + right);
    assert Parents(h, a) == [h((left + [middle]) + right)];
    assert Parents(h, b) == [h(left + ([middle] + right))];
  }
}
