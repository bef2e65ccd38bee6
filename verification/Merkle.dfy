/** Merkle proofs against a 32-byte root, and the full tree such a root stands for. */
module Merkle {
  import opened Encoding
  import opened Stf

  /** Listed from the leaf upwards; `isRight` says that `hash` is the right child. */
  datatype Sibling = Sibling(isRight: bool, hash: Hash)

  datatype MerkleProof = MerkleProof(account: Account, siblings: seq<Sibling>)

  function AccountHash(h: Hasher, a: Account): Hash { h(AccountBytes(a)) }

  function HashNodes(h: Hasher, left: Hash, right: Hash): Hash { h(left + right) }

  /** The 64 bytes hashed when `s` is combined with the digest below it. */
  function NodeBytes(below: Hash, s: Sibling): (r: Bytes)
    ensures |r| == 64
  {
    if s.isRight then below + s.hash else s.hash + below
  }

  /** The root reached from a leaf digest along `siblings`. */
  function Fold(h: Hasher, leaf: Hash, siblings: seq<Sibling>): Hash {
    if siblings == [] then leaf
    else
      var n := |siblings| - 1;
      h(NodeBytes(Fold(h, leaf, siblings[..n]), siblings[n]))
  }

  predicate Verifies(h: Hasher, p: MerkleProof, root: Hash) {
    Fold(h, AccountHash(h, p.account), p.siblings) == root
  }

  method ComputeNewRoot(h: Hasher, proof: MerkleProof, newLeafHash: Hash) returns (root: Hash)
    ensures root == Fold(h, newLeafHash, proof.siblings)
  {
    root := newLeafHash;
    for i := 0 to |proof.siblings|
      invariant root == Fold(h, newLeafHash, proof.siblings[..i])
    {
      var s := proof.siblings[i];
      assert proof.siblings[..i + 1][..i] == proof.siblings[..i];
      root := if s.isRight then HashNodes(h, root, s.hash) else HashNodes(h, s.hash, root);
    }
    assert proof.siblings[..|proof.siblings|] == proof.siblings;
  }

  method Verify(h: Hasher, proof: MerkleProof, expectedRoot: Hash) returns (ok: bool)
    ensures ok <==> Verifies(h, proof, expectedRoot)
  {
    var current := AccountHash(h, proof.account);
    for i := 0 to |proof.siblings|
      invariant current == Fold(h, AccountHash(h, proof.account), proof.siblings[..i])
    {
      var s := proof.siblings[i];
      assert proof.siblings[..i + 1][..i] == proof.siblings[..i];
      current := if s.isRight then HashNodes(h, current, s.hash) else HashNodes(h, s.hash, current);
    }
    assert proof.siblings[..|proof.siblings|] == proof.siblings;
    ok := current == expectedRoot;
  }

  // ---- The full tree ----

  datatype Tree = Leaf(account: Account) | Node(left: Tree, right: Tree)

  /** A position, from the leaf upwards: `true` where the way down turns left (the sibling is right). */
  type Path = seq<bool>

  function Root(h: Hasher, t: Tree): Hash {
    match t
    case Leaf(a) => AccountHash(h, a)
    case Node(l, r) => HashNodes(h, Root(h, l), Root(h, r))
  }

  function LeafAt(t: Tree, path: Path): Option<Account>
    decreases t
  {
    match t
    case Leaf(a) => if path == [] then Some(a) else None
    case Node(l, r) =>
      if path == [] then None
      else LeafAt(if path[|path| - 1] then l else r, path[..|path| - 1])
  }

  /** The tree with the leaf at `path` replaced. */
  function Update(t: Tree, path: Path, a: Account): Tree
    decreases t
  {
    match t
    case Leaf(_) => if path == [] then Leaf(a) else t
    case Node(l, r) =>
      if path == [] then t
      else if path[|path| - 1] then Node(Update(l, path[..|path| - 1], a), r)
      else Node(l, Update(r, path[..|path| - 1], a))
  }

  /** The sibling digests an honest prover reads off the tree along `path`. */
  function SiblingsAlong(h: Hasher, t: Tree, path: Path): seq<Sibling>
    decreases t
  {
    match t
    case Leaf(_) => []
    case Node(l, r) =>
      if path == [] then []
      else
        var below := path[..|path| - 1];
        if path[|path| - 1] then SiblingsAlong(h, l, below) + [Sibling(true, Root(h, r))]
        else SiblingsAlong(h, r, below) + [Sibling(false, Root(h, l))]
  }

  function PathOf(siblings: seq<Sibling>): (p: Path)
    ensures |p| == |siblings|
  {
    seq(|siblings|, i requires 0 <= i < |siblings| => siblings[i].isRight)
  }

  /** Every byte string hashed to compute the root of `t`. */
  function TreePreimages(h: Hasher, t: Tree): set<Bytes> {
    match t
    case Leaf(a) => {AccountBytes(a)}
    case Node(l, r) => TreePreimages(h, l) + TreePreimages(h, r) + {Root(h, l) + Root(h, r)}
  }

  /** Every byte string hashed to fold the proof of `a`. */
  function FoldPreimages(h: Hasher, a: Account, siblings: seq<Sibling>): set<Bytes> {
    if siblings == [] then {AccountBytes(a)}
    else
      var n := |siblings| - 1;
      FoldPreimages(h, a, siblings[..n]) +
      {NodeBytes(Fold(h, AccountHash(h, a), siblings[..n]), siblings[n])}
  }

  function BindingPreimages(h: Hasher, t: Tree, p: MerkleProof): set<Bytes> {
    TreePreimages(h, t) + FoldPreimages(h, p.account, p.siblings)
  }

  lemma Collide(h: Hasher, x: Bytes, y: Bytes, s: set<Bytes>)
    requires x in s && y in s && x != y && h(x) == h(y)
    ensures CollisionIn(h, s)
  {}

  lemma NodeBytesInjective(l: Hash, r: Hash, below: Hash, s: Sibling)
    requires l + r == NodeBytes(below, s)
    ensures if s.isRight then l == below && r == s.hash else r == below && l == s.hash
  {
    var x := l + r;
    assert x[..32] == l && x[32..] == r;
    var y := NodeBytes(below, s);
    assert s.isRight ==> y[..32] == below && y[32..] == s.hash;
    assert !s.isRight ==> y[32..] == below && y[..32] == s.hash;
  }

  /** The proof's account and siblings are exactly those of `t` on the proof's path. */
  predicate Matches(h: Hasher, t: Tree, p: MerkleProof) {
    && LeafAt(t, PathOf(p.siblings)) == Some(p.account)
    && SiblingsAlong(h, t, PathOf(p.siblings)) == p.siblings
  }

  lemma MatchesAbove(h: Hasher, l: Tree, r: Tree, a: Account, below: seq<Sibling>, s: Sibling)
    requires Matches(h, if s.isRight then l else r, MerkleProof(a, below))
    requires s.hash == Root(h, if s.isRight then r else l)
    ensures Matches(h, Node(l, r), MerkleProof(a, below + [s]))
  {
    assert PathOf(below + [s])[..|below|] == PathOf(below);
  }

  /**
   A proof that verifies against the root of a full tree follows the path of a leaf holding exactly its
   account and carries exactly the tree's siblings, or the tree and the proof contain a collision.
   Leaves are 48-byte preimages and nodes 64-byte ones, so a shorter or longer path is a collision too.
   */
  lemma {:induction false} Binding(h: Hasher, t: Tree, p: MerkleProof)
    requires Verifies(h, p, Root(h, t))
    ensures Matches(h, t, p) || CollisionIn(h, BindingPreimages(h, t, p))
    decreases t
  {
    if p.siblings == [] {
      BindingAtLeaf(h, t, p);
    } else {
      var n := |p.siblings| - 1;
      var s, q := p.siblings[n], MerkleProof(p.account, p.siblings[..n]);
      var below := Fold(h, AccountHash(h, p.account), q.siblings);
      match t
      case Leaf(a) =>
        Collide(h, AccountBytes(a), NodeBytes(below, s), BindingPreimages(h, t, p));
      case Node(l, r) =>
        if Root(h, l) + Root(h, r) != NodeBytes(below, s) {
          Collide(h, Root(h, l) + Root(h, r), NodeBytes(below, s), BindingPreimages(h, t, p));
        } else {
          NodeBytesInjective(Root(h, l), Root(h, r), below, s);
          var child := if s.isRight then l else r;
          Binding(h, child, q);
          if Matches(h, child, q) {
            MatchesAbove(h, l, r, p.account, q.siblings, s);
            assert p.siblings == q.siblings + [s];
          } else {
            CollisionMonotone(h, BindingPreimages(h, child, q), BindingPreimages(h, t, p));
          }
        }
    }
  }

  lemma BindingAtLeaf(h: Hasher, t: Tree, p: MerkleProof)
    requires p.siblings == [] && Verifies(h, p, Root(h, t))
    ensures Matches(h, t, p) || CollisionIn(h, BindingPreimages(h, t, p))
  {
    match t
    case Leaf(a) =>
      if AccountBytes(a) == AccountBytes(p.account) { AccountBytesInjective(a, p.account); }
      else { Collide(h, AccountBytes(a), AccountBytes(p.account), BindingPreimages(h, t, p)); }
    case Node(l, r) =>
      Collide(h, Root(h, l) + Root(h, r), AccountBytes(p.account), BindingPreimages(h, t, p));
  }

  /** The smallest tree, byte by byte: the root hashes the left digest and then the right one; both proofs verify. */
  lemma TwoLeaves(h: Hasher, a: Account, b: Account)
    ensures var x, y := h(AccountBytes(a)), h(AccountBytes(b));
      && Root(h, Node(Leaf(a), Leaf(b))) == h(x + y)
      && Verifies(h, MerkleProof(a, [Sibling(true, y)]), h(x + y))
      && Verifies(h, MerkleProof(b, [Sibling(false, x)]), h(x + y))
  {
    var x, y := h(AccountBytes(a)), h(AccountBytes(b));
    assert Fold(h, x, [Sibling(true, y)][..0]) == x && Fold(h, y, [Sibling(false, x)][..0]) == y;
  }

  /** Siblings read off a tree lead back along the path they were read on. */
  lemma {:induction false} SiblingsFollowPath(h: Hasher, t: Tree, path: Path)
    requires LeafAt(t, path).Some?
    ensures PathOf(SiblingsAlong(h, t, path)) == path
    decreases t
  {
    if t.Node? {
      var n := |path| - 1;
      SiblingsFollowPath(h, if path[n] then t.left else t.right, path[..n]);
      assert path == path[..n] + [path[n]];
    }
  }

  /** Folding the old siblings over a new leaf gives the root of the rewritten tree. */
  lemma {:induction false} UpdateRoot(h: Hasher, t: Tree, path: Path, a: Account)
    requires LeafAt(t, path).Some?
    ensures Fold(h, AccountHash(h, a), SiblingsAlong(h, t, path)) == Root(h, Update(t, path, a))
    ensures SiblingsAlong(h, Update(t, path, a), path) == SiblingsAlong(h, t, path)
    ensures LeafAt(Update(t, path, a), path) == Some(a)
    decreases t
  {
    if t.Node? {
      var n := |path| - 1;
      var child := if path[n] then t.left else t.right;
      UpdateRoot(h, child, path[..n], a);
      var sibs := SiblingsAlong(h, t, path);
      assert sibs[..|sibs| - 1] == SiblingsAlong(h, child, path[..n]);
    }
  }

  /** Rewriting one leaf leaves every other position, leaf or not, as it was. */
  lemma {:induction false} UpdateElsewhere(t: Tree, path: Path, a: Account, other: Path)
    requires LeafAt(t, path).Some?
    requires other != path
    ensures LeafAt(Update(t, path, a), other) == LeafAt(t, other)
    decreases t
  {
    if t.Node? && other != [] {
      var n, m := |path| - 1, |other| - 1;
      if path[n] == other[m] {
        assert path == path[..n] + [path[n]] && other == other[..m] + [other[m]];
        UpdateElsewhere(if path[n] then t.left else t.right, path[..n], a, other[..m]);
      }
    }
  }

  /** An honest proof of a leaf verifies, before and after the leaf is rewritten. */
  lemma HonestProofVerifies(h: Hasher, t: Tree, path: Path)
    requires LeafAt(t, path).Some?
    ensures Verifies(h, MerkleProof(LeafAt(t, path).value, SiblingsAlong(h, t, path)), Root(h, t))
    ensures forall a :: Verifies(h, MerkleProof(a, SiblingsAlong(h, t, path)), Root(h, Update(t, path, a)))
  {
    UpdateSame(t, path);
    UpdateRoot(h, t, path, LeafAt(t, path).value);
    forall a ensures Verifies(h, MerkleProof(a, SiblingsAlong(h, t, path)), Root(h, Update(t, path, a))) {
      UpdateRoot(h, t, path, a);
    }
  }

  lemma {:induction false} UpdateSame(t: Tree, path: Path)
    requires LeafAt(t, path).Some?
    ensures Update(t, path, LeafAt(t, path).value) == t
    decreases t
  {
    if t.Node? {
      UpdateSame(if path[|path| - 1] then t.left else t.right, path[..|path| - 1]);
    }
  }

  /** One proof shape cannot fold two different accounts to one root without a collision. */
  lemma {:induction false} FoldInjective(h: Hasher, a: Account, b: Account, siblings: seq<Sibling>)
    requires a != b
    requires Fold(h, AccountHash(h, a), siblings) == Fold(h, AccountHash(h, b), siblings)
    ensures CollisionIn(h, FoldPreimages(h, a, siblings) + FoldPreimages(h, b, siblings))
  {
    var all := FoldPreimages(h, a, siblings) + FoldPreimages(h, b, siblings);
    if siblings == [] {
      if AccountBytes(a) == AccountBytes(b) { AccountBytesInjective(a, b); }
      Collide(h, AccountBytes(a), AccountBytes(b), all);
    } else {
      var n := |siblings| - 1;
      var fa, fb := Fold(h, AccountHash(h, a), siblings[..n]), Fold(h, AccountHash(h, b), siblings[..n]);
      var x, y := NodeBytes(fa, siblings[n]), NodeBytes(fb, siblings[n]);
      if x == y {
        assert fa == (if siblings[n].isRight then x[..32] else x[32..]);
        assert fb == (if siblings[n].isRight then y[..32] else y[32..]);
        FoldInjective(h, a, b, siblings[..n]);
        CollisionMonotone(h, FoldPreimages(h, a, siblings[..n]) + FoldPreimages(h, b, siblings[..n]), all);
      } else {
        Collide(h, x, y, all);
      }
    }
  }

  /** Trees with one root are equal, or the strings hashed for them contain a collision. */
  lemma {:induction false} RootBinding(h: Hasher, t: Tree, u: Tree)
    requires Root(h, t) == Root(h, u)
    ensures t == u || CollisionIn(h, TreePreimages(h, t) + TreePreimages(h, u))
  {
    var all, x, y := TreePreimages(h, t) + TreePreimages(h, u), RootBytes(h, t), RootBytes(h, u);
    if x != y {
      Collide(h, x, y, all);
    } else if t.Leaf? && u.Leaf? {
      AccountBytesInjective(t.account, u.account);
    } else if t.Node? && u.Node? {
      assert x[..32] == Root(h, t.left) && x[32..] == Root(h, t.right);
      assert y[..32] == Root(h, u.left) && y[32..] == Root(h, u.right);
      RootBinding(h, t.left, u.left);
      RootBinding(h, t.right, u.right);
      if t.left != u.left {
        CollisionMonotone(h, TreePreimages(h, t.left) + TreePreimages(h, u.left), all);
      } else if t.right != u.right {
        CollisionMonotone(h, TreePreimages(h, t.right) + TreePreimages(h, u.right), all);
      }
    }
  }

  /** The string whose digest is the root: 48 bytes for a leaf, 64 for a node. */
  function RootBytes(h: Hasher, t: Tree): (x: Bytes)
    ensures x in TreePreimages(h, t) && h(x) == Root(h, t) && |x| == if t.Leaf? then 48 else 64
  {
    if t.Leaf? then AccountBytes(t.account) else Root(h, t.left) + Root(h, t.right)
  }
}
