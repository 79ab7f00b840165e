/** The heap tree of merkle.go: nodes with cached hashes, updated in place. */
module Merkle {
  import opened Bytes
  import opened MerkleTrie
  import opened MerkleProofs

  /** A leaf when both children are null, else an inner node; the empty tree is null. */
  class Node {
    var hash: Digest
    var child0: Node?
    var child1: Node?
    var lbl: Slice
    var val: Slice
    ghost var trie: Trie
    ghost var repr: set<Node>

    /** The node represents trie, shares no node between its subtrees, and its cached hash, like
        every one below it, is what recomputing it would give. */
    ghost predicate Valid(h: HashFn)
      reads this, repr
      decreases repr
    {
      && this in repr
      && (child0 != null ==>
            child0 in repr && child0.repr <= repr && this !in child0.repr && child0.Valid(h))
      && (child1 != null ==>
            child1 in repr && child1.repr <= repr && this !in child1.repr && child1.Valid(h))
      && (child0 != null && child1 != null ==> child0.repr !! child1.repr)
      && trie == (if child0 == null && child1 == null then Leaf(lbl, val) else Inner(TrieAt(child0), TrieAt(child1)))
      && hash == Hash(h, trie)
    }

    constructor (lbl: Slice, val: Slice)
      ensures this.lbl == lbl && this.val == val && child0 == null && child1 == null
      ensures repr == {this}
    {
      this.lbl, this.val, child0, child1 := lbl, val, null, null;
      trie, repr := Leaf(lbl, val), {this};
    }
  }

  ghost function TrieAt(n: Node?): Trie
    reads n
  {
    if n == null then Empty else n.trie
  }

  ghost function ReprAt(n: Node?): set<Node>
    reads n
  {
    if n == null then {} else n.repr
  }

  ghost predicate ValidAt(h: HashFn, n: Node?)
    reads n, ReprAt(n)
  {
    n != null ==> n.Valid(h)
  }

  method GetNodeHash(ghost h: HashFn, n: Node?, emptyHash: Digest) returns (d: Digest)
    requires ValidAt(h, n) && emptyHash == h([EMPTY_TAG])
    ensures d == Hash(h, TrieAt(n))
  {
    if n == null {
      return emptyHash;
    }
    return n.hash;
  }

  method SetInnerHash(h: HashFn, n: Node, emptyHash: Digest)
    requires ValidAt(h, n.child0) && ValidAt(h, n.child1) && emptyHash == h([EMPTY_TAG])
    requires n.child0 != null || n.child1 != null
    requires n !in ReprAt(n.child0) && n !in ReprAt(n.child1) && ReprAt(n.child0) !! ReprAt(n.child1)
    modifies n`hash, n`trie, n`repr
    ensures n.Valid(h)
    ensures n.trie == Inner(TrieAt(n.child0), TrieAt(n.child1))
    ensures n.repr == {n} + ReprAt(n.child0) + ReprAt(n.child1)
  {
    var child0 := GetNodeHash(h, n.child0, emptyHash);
    var child1 := GetNodeHash(h, n.child1, emptyHash);
    n.hash := h(InnerPreimage(child0, child1));
    n.trie := Inner(TrieAt(n.child0), TrieAt(n.child1));
    n.repr := {n} + ReprAt(n.child0) + ReprAt(n.child1);
  }

  method SetLeafHash(h: HashFn, n: Node)
    requires n.child0 == null && n.child1 == null
    modifies n`hash, n`trie, n`repr
    ensures n.Valid(h) && n.trie == Leaf(n.lbl, n.val) && n.repr == {n}
  {
    n.hash := h(LeafPreimage(n.lbl, n.val));
    n.trie := Leaf(n.lbl, n.val);
    n.repr := {n};
  }

  /** put of merkle.go. The source overwrites the pointer to the subtree; here the new pointer is
      returned. Nodes are updated in place: only the new leaf and the inner nodes above it are new. */
  method PutNode(h: HashFn, n: Node?, depth: nat, lbl: Slice, val: Slice, emptyHash: Digest, ghost p: seq<bool>)
    returns (r: Node)
    requires ValidAt(h, n) && emptyHash == h([EMPTY_TAG])
    requires |p| == depth && WellFormed(TrieAt(n), p) && Follows(lbl, p)
    modifies ReprAt(n)
    ensures r.Valid(h) && fresh(r.repr - old(ReprAt(n)))
    ensures r.trie == Put(old(TrieAt(n)), p, lbl, val)
    decreases LABEL_BITS - depth
  {
    if n == null {
      r := new Node(lbl, val);
      SetLeafHash(h, r);
      return;
    }
    if n.child0 == null && n.child1 == null {
      if n.lbl == lbl {
        n.val := val;
        SetLeafHash(h, n);
        return n;
      }
      PathLeavesRoom(lbl, n.lbl, p);
      FollowsNext(lbl, p);
      FollowsNext(n.lbl, p);
      r := new Node([], []);
      if !GetBit(n.lbl, depth) {
        r.child0 := n;
      } else {
        r.child1 := n;
      }
      r := PutChild(h, r, depth, lbl, val, emptyHash, p);
      return;
    }
    FollowsNext(lbl, p);
    r := PutChild(h, n, depth, lbl, val, emptyHash, p);
  }

  /** The recursive call of put on the child that the label's bit selects, and the new hash. */
  method PutChild(h: HashFn, n: Node, depth: nat, lbl: Slice, val: Slice, emptyHash: Digest, ghost p: seq<bool>)
    returns (r: Node)
    requires ValidAt(h, n.child0) && ValidAt(h, n.child1) && emptyHash == h([EMPTY_TAG])
    requires n !in ReprAt(n.child0) && n !in ReprAt(n.child1) && ReprAt(n.child0) !! ReprAt(n.child1)
    requires |p| == depth < LABEL_BITS && Follows(lbl, p + [GetBit(lbl, depth)])
    requires WellFormed(TrieAt(n.child0), p + [false]) && WellFormed(TrieAt(n.child1), p + [true])
    modifies n, ReprAt(n.child0), ReprAt(n.child1)
    ensures r == n && n.Valid(h) && fresh(n.repr - old({n} + ReprAt(n.child0) + ReprAt(n.child1)))
    ensures n.trie == if GetBit(lbl, depth)
                      then Inner(old(TrieAt(n.child0)), Put(old(TrieAt(n.child1)), p + [true], lbl, val))
                      else Inner(Put(old(TrieAt(n.child0)), p + [false], lbl, val), old(TrieAt(n.child1)))
    decreases LABEL_BITS - depth, 0
  {
    if !GetBit(lbl, depth) {
      var c := PutNode(h, n.child0, depth + 1, lbl, val, emptyHash, p + [false]);
      n.child0 := c;
    } else {
      var c := PutNode(h, n.child1, depth + 1, lbl, val, emptyHash, p + [true]);
      n.child1 := c;
    }
    SetInnerHash(h, n, emptyHash);
    return n;
  }

  /** find of merkle.go: where the label leads, and the sibling hashes after 8 placeholder bytes. */
  method FindNode(h: HashFn, lbl: Bytes, getProof: bool, n: Node?, depth: nat, emptyHash: Digest)
    returns (found: Found, proof: Bytes)
    requires ValidAt(h, n) && emptyHash == h([EMPTY_TAG])
    ensures found == Find(TrieAt(n), lbl, depth)
    ensures getProof ==> proof == INT_PLACEHOLDER + Siblings(h, TrieAt(n), lbl, depth)
    decreases ReprAt(n), 1
  {
    hide Hash, GetBit;
    proof := [];
    if n == null {
      if getProof {
        proof := INT_PLACEHOLDER;
      }
      return Nothing, proof;
    }
    if n.child0 == null && n.child1 == null {
      if getProof {
        proof := INT_PLACEHOLDER;
      }
      return At(n.lbl, n.val), proof;
    }
    found, proof := FindChild(h, lbl, getProof, n, depth, emptyHash);
  }

  /** The recursive call of find on the child that the label's bit selects, and the sibling's hash. */
  method FindChild(h: HashFn, lbl: Bytes, getProof: bool, n: Node, depth: nat, emptyHash: Digest)
    returns (found: Found, proof: Bytes)
    requires n.Valid(h) && (n.child0 != null || n.child1 != null) && emptyHash == h([EMPTY_TAG])
    ensures found == Find(n.trie, lbl, depth)
    ensures getProof ==> proof == INT_PLACEHOLDER + Siblings(h, n.trie, lbl, depth)
    decreases ReprAt(n), 0
  {
    hide Hash, GetBit, Node.Valid;
    InnerParts(h, n);
    var child, sib := n.child0, n.child1;
    if GetBit(lbl, depth) {
      child, sib := n.child1, n.child0;
    }
    FindInner(h, n.trie, lbl, depth);
    found, proof := FindNode(h, lbl, getProof, child, depth + 1, emptyHash);
    if getProof {
      var sibHash := GetNodeHash(h, sib, emptyHash);
      proof := proof + sibHash;
    }
  }

  lemma InnerParts(h: HashFn, n: Node)
    requires n.Valid(h) && (n.child0 != null || n.child1 != null)
    ensures n.trie == Inner(TrieAt(n.child0), TrieAt(n.child1))
    ensures ValidAt(h, n.child0) && ValidAt(h, n.child1)
    ensures ReprAt(n.child0) < ReprAt(n) && ReprAt(n.child1) < ReprAt(n)
  {
    hide Hash;
  }

  lemma FindInner(h: HashFn, t: Trie, lbl: Bytes, depth: nat)
    requires t.Inner?
    ensures var (child, sib) := if GetBit(lbl, depth) then (t.child1, t.child0) else (t.child0, t.child1);
            && Find(t, lbl, depth) == Find(child, lbl, depth + 1)
            && INT_PLACEHOLDER + Siblings(h, t, lbl, depth)
               == INT_PLACEHOLDER + Siblings(h, child, lbl, depth + 1) + Hash(h, sib)
  {
    hide Hash, GetBit;
  }

  class Tree {
    const h: HashFn
    const emptyHash: Digest
    var root: Node?

    ghost var repr: set<object>

    ghost predicate Valid()
      reads this, repr
      ensures Valid() ==> this in repr
    {
      && this in repr
      && (root != null ==> root in repr && root.repr <= repr && root.Valid(h))
      && WellFormed(TrieAt(root), []) && emptyHash == h([EMPTY_TAG])
    }

    /** The map that the tree stores. */
    ghost function Contents(): KeyMap
      requires Valid()
      reads this, repr
    {
      EntriesFollow(TrieAt(root), []);
      Entries(TrieAt(root))
    }

    lemma RootIsTrieOf()
      requires Valid()
      ensures TrieAt(root) == TrieOf(Contents())
    {
      TrieOfUnique(TrieAt(root), Contents());
    }

    constructor (h: HashFn)
      ensures Valid() && fresh(repr) && this.h == h
      ensures Contents() == map[]
    {
      this.h, emptyHash, root, repr := h, h([EMPTY_TAG]), null, {this};
    }

    /** Returns the error flag. */
    method Put(lbl: Slice, val: Slice) returns (err: bool)
      requires Valid()
      modifies repr
      ensures Valid() && fresh(repr - old(repr))
      ensures err <==> |lbl| != HASH_LEN
      ensures Contents() == if err then old(Contents()) else old(Contents())[lbl := val]
    {
      if |lbl| != HASH_LEN {
        return true;
      }
      PutWellFormed(TrieAt(root), [], lbl, val);
      PutEntries(TrieAt(root), [], lbl, val);
      root := PutNode(h, root, 0, lbl, val, emptyHash, []);
      repr := repr + root.repr;
      return false;
    }

    method Get(lbl: Bytes) returns (inTree: bool, val: Slice)
      requires Valid()
      ensures inTree <==> Lookup(Contents(), lbl).Some?
      ensures val == if inTree then Lookup(Contents(), lbl).value else []
    {
      var found, _ := FindNode(h, lbl, false, root, 0, emptyHash);
      FindAgrees(TrieAt(root), [], lbl);
      if found.At? && found.lbl == lbl {
        return true, found.val;
      }
      return false, [];
    }

    method Prove(lbl: Slice) returns (r: ProveResult)
      requires Valid()
      ensures r == ProveFor(h, Contents(), lbl)
    {
      var found, proof := FindNode(h, lbl, true, root, 0, emptyHash);
      RootIsTrieOf();
      ghost var siblings := Siblings(h, TrieAt(root), lbl, 0);
      SiblingsLength(h, TrieAt(root), [], lbl);
      r := FinishProof(lbl, found, proof, siblings);
      ProveForFound(h, Contents(), lbl, found, siblings, r.proof);
    }

    method Digest() returns (d: Digest)
      requires Valid()
      ensures d == MapDigest(h, Contents())
    {
      RootIsTrieOf();
      d := GetNodeHash(h, root, emptyHash);
    }
  }
}
