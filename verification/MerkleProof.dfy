/** Merkle proofs as bytes: how the tree assembles them, what Verify makes of them,
    and why an accepted proof states the content of the tree behind the digest. */
module MerkleProofs {
  import opened Bytes
  import opened MerkleTrie

  datatype MerkleProof = MerkleProof(siblings: Slice, foundOtherLeaf: bool, leafLabel: Slice, leafVal: Slice)

  function MerkleProofEncode(b0: Bytes, o: MerkleProof): Bytes {
    var b := WriteSlice1D(b0, o.siblings);
    var b := WriteBool(b, o.foundOtherLeaf);
    var b := WriteSlice1D(b, o.leafLabel);
    WriteSlice1D(b, o.leafVal)
  }

  function MerkleProofDecode(b0: Bytes): Dec<MerkleProof> {
    match ReadSlice1D(b0) case Bad => Bad case Ok(a1, b1) =>
    match ReadBool(b1) case Bad => Bad case Ok(a2, b2) =>
    match ReadSlice1D(b2) case Bad => Bad case Ok(a3, b3) =>
    match ReadSlice1D(b3) case Bad => Bad case Ok(a4, b4) =>
    Ok(MerkleProof(a1, a2, a3, a4), b4)
  }

  lemma MerkleProofRead(o: MerkleProof, tail: Bytes)
    ensures MerkleProofDecode(MerkleProofEncode([], o) + tail) == Ok(o, tail)
  {
    var flag := WriteBool([], o.foundOtherLeaf);
    var rest3 := SliceBytes(o.leafVal) + tail;
    var rest2 := SliceBytes(o.leafLabel) + rest3;
    var rest1 := flag + rest2;
    assert MerkleProofEncode([], o) + tail == SliceBytes(o.siblings) + rest1;
    SliceRead(o.siblings, rest1);
    assert rest1[1..] == rest2;
    SliceRead(o.leafLabel, rest3);
    SliceRead(o.leafVal, tail);
  }

  // ---- what a verifier sees

  /** The node a proof ends in; none when a non-membership proof ends in the label itself. */
  function LastNode(inTree: bool, lbl: Slice, val: Slice, proof: MerkleProof): Option<Trie> {
    if inTree then Some(Leaf(lbl, val))
    else if !proof.foundOtherLeaf then Some(Empty)
    else if lbl == proof.leafLabel then None
    else Some(Leaf(proof.leafLabel, proof.leafVal))
  }

  /** The last node below its siblings, deepest sibling first: the part of the tree that a
      proof reveals, starting at the given depth. */
  function Revealed(lbl: Bytes, last: Trie, siblings: Bytes, depth: nat): Trie {
    if |siblings| < HASH_LEN then last
    else
      var top := |siblings| - HASH_LEN;
      Join(GetBit(lbl, depth), Revealed(lbl, last, siblings[..top], depth + 1), Cut(siblings[top..]))
  }

  lemma RevealedStep(lbl: Bytes, last: Trie, below: Bytes, sib: Digest, depth: nat)
    ensures Revealed(lbl, last, below + sib, depth)
            == Join(GetBit(lbl, depth), Revealed(lbl, last, below, depth + 1), Cut(sib))
  {
    assert (below + sib)[..|below|] == below && (below + sib)[|below|..] == sib;
  }

  lemma HashJoin(h: HashFn, bit: bool, t: Trie, sib: Trie)
    ensures Hash(h, Join(bit, t, sib))
            == h(if bit then InnerPreimage(Hash(h, sib), Hash(h, t)) else InnerPreimage(Hash(h, t), Hash(h, sib)))
  {
  }

  /** One turn of the loop in verifySiblings. */
  lemma FoldStep(h: HashFn, lbl: Bytes, last: Trie, below: Bytes, sib: Digest, depth: nat)
    ensures var curr := Hash(h, Revealed(lbl, last, below, depth + 1));
            Hash(h, Revealed(lbl, last, below + sib, depth))
            == h(if GetBit(lbl, depth) then InnerPreimage(sib, curr) else InnerPreimage(curr, sib))
  {
    RevealedStep(lbl, last, below, sib, depth);
    HashJoin(h, GetBit(lbl, depth), Revealed(lbl, last, below, depth + 1), Cut(sib));
  }

  /** The tree revealed by the arguments of Verify, if they are well formed. */
  function RevealedTree(inTree: bool, lbl: Slice, val: Slice, proof: Bytes): Option<Trie> {
    match MerkleProofDecode(proof)
    case Bad => None
    case Ok(p, _) =>
      match LastNode(inTree, lbl, val, p)
      case None => None
      case Some(last) =>
        if |p.siblings| % HASH_LEN != 0 then None else Some(Revealed(lbl, last, p.siblings, 0))
  }

  /** Verify of merkle.go returns no error. */
  predicate Accepts(h: HashFn, inTree: bool, lbl: Slice, val: Slice, proof: Bytes, dig: Bytes) {
    match RevealedTree(inTree, lbl, val, proof)
    case None => false
    case Some(t) => Hash(h, t) == dig
  }

  // ---- verification, as the loop in verifySiblings computes it

  lemma WholeHashes(n: nat)
    requires n % HASH_LEN == 0
    ensures n == 32 * (n / HASH_LEN)
  {
  }

  /** Returns the error flag. */
  method VerifySiblings(h: HashFn, lbl: Bytes, lastHash: Digest, siblings: Bytes, dig: Bytes, ghost last: Trie)
    returns (err: bool)
    requires Hash(h, last) == lastHash
    ensures err <==> |siblings| % HASH_LEN != 0 || Hash(h, Revealed(lbl, last, siblings, 0)) != dig
  {
    if |siblings| % HASH_LEN != 0 {
      return true;
    }
    hide Revealed, Hash;
    NoSiblings(lbl, last, |siblings| / HASH_LEN);
    WholeHashes(|siblings|);
    var currHash := lastHash;
    var maxDepth := |siblings| / HASH_LEN;
    var begin, depth := 0, maxDepth;
    assert siblings[..0] == [];
    for depthInv := 0 to maxDepth
      invariant begin == 32 * depthInv && depth == maxDepth - depthInv
      invariant currHash == Hash(h, Revealed(lbl, last, siblings[..begin], depth))
    {
      var end := (depthInv + 1) * HASH_LEN;
      depth := maxDepth - depthInv - 1;
      currHash := HashUp(h, lbl, currHash, siblings, begin, end, depth, last);
      begin := end;
    }
    assert siblings[..begin] == siblings;
    return currHash != dig;
  }

  /** The body of the loop in verifySiblings: one hash up the tree. */
  method HashUp(h: HashFn, lbl: Bytes, currHash: Digest, siblings: Bytes, begin: nat, end: nat, depth: nat,
                ghost last: Trie)
    returns (hashOut: Digest)
    requires begin + HASH_LEN == end <= |siblings|
    requires currHash == Hash(h, Revealed(lbl, last, siblings[..begin], depth + 1))
    ensures hashOut == Hash(h, Revealed(lbl, last, siblings[..end], depth))
  {
    var sib: Digest := siblings[begin..end];
    assert siblings[..end] == siblings[..begin] + sib;
    FoldStep(h, lbl, last, siblings[..begin], sib, depth);
    if !GetBit(lbl, depth) {
      return h(InnerPreimage(currHash, sib));
    }
    return h(InnerPreimage(sib, currHash));
  }

  /** Returns the error flag. */
  method Verify(h: HashFn, inTree: bool, lbl: Slice, val: Slice, proof: Bytes, dig: Bytes) returns (err: bool)
    ensures err <==> !Accepts(h, inTree, lbl, val, proof, dig)
  {
    var proofDec := MerkleProofDecode(proof);
    if proofDec.Bad? {
      return true;
    }
    var p := proofDec.val;
    var lastHash;
    ghost var last;
    if inTree {
      lastHash, last := h(LeafPreimage(lbl, val)), Leaf(lbl, val);
    } else if p.foundOtherLeaf {
      lastHash, last := h(LeafPreimage(p.leafLabel, p.leafVal)), Leaf(p.leafLabel, p.leafVal);
      if lbl == p.leafLabel {
        return true;
      }
    } else {
      lastHash, last := h([EMPTY_TAG]), Empty;
    }
    err := VerifySiblings(h, lbl, lastHash, p.siblings, dig, last);
  }

  // ---- what verification computes, hash by hash

  /** Hash up the given number of levels: the deepest sibling first, on the side that the label's bit
      leaves free. */
  function Climb(h: HashFn, lbl: Bytes, curr: Digest, siblings: Bytes, levels: nat): Digest
    decreases levels
  {
    if levels == 0 || |siblings| < HASH_LEN then curr
    else
      var sib := siblings[..HASH_LEN];
      var both := if GetBit(lbl, levels - 1) then sib + curr else curr + sib;
      Climb(h, lbl, h([INNER_TAG] + both), siblings[HASH_LEN..], levels - 1)
  }

  lemma {:induction false} ClimbFrom(h: HashFn, lbl: Bytes, last: Trie, below: Bytes, siblings: Bytes, levels: nat)
    requires |siblings| == 32 * levels
    ensures Climb(h, lbl, Hash(h, Revealed(lbl, last, below, levels)), siblings, levels)
            == Hash(h, Revealed(lbl, last, below + siblings, 0))
    decreases levels
  {
    hide Revealed, Hash, GetBit;
    if levels == 0 {
      assert below + siblings == below;
    } else {
      var sib: Digest, rest := siblings[..HASH_LEN], siblings[HASH_LEN..];
      FoldStep(h, lbl, last, below, sib, levels - 1);
      ClimbFrom(h, lbl, last, below + sib, rest, levels - 1);
      assert below + sib + rest == below + siblings;
    }
  }

  /** Exactly which bytes are accepted: those that decode, whatever follows, whose siblings are whole
      hashes and lead from the hash of the last node to the digest. For a claim of membership the
      leaf in the proof does not matter; for one of non-membership it must not be of the label. */
  lemma AcceptsIff(h: HashFn, inTree: bool, lbl: Slice, val: Slice, proof: Bytes, dig: Bytes)
    ensures match MerkleProofDecode(proof)
            case Bad => !Accepts(h, inTree, lbl, val, proof, dig)
            case Ok(o, _) =>
              Accepts(h, inTree, lbl, val, proof, dig)
              <==> && |o.siblings| % HASH_LEN == 0
                   && (inTree || !o.foundOtherLeaf || o.leafLabel != lbl)
                   && Climb(h, lbl, h(if inTree then LeafPreimage(lbl, val)
                                      else if o.foundOtherLeaf then LeafPreimage(o.leafLabel, o.leafVal)
                                      else [EMPTY_TAG]), o.siblings, |o.siblings| / HASH_LEN) == dig
  {
    hide MerkleProofDecode, Revealed, Climb;
    match MerkleProofDecode(proof)
    case Bad =>
    case Ok(o, _) =>
      var last := LastNode(inTree, lbl, val, o);
      if |o.siblings| % HASH_LEN == 0 && last.Some? {
        WholeHashes(|o.siblings|);
        ClimbFrom(h, lbl, last.value, [], o.siblings, |o.siblings| / HASH_LEN);
        NoSiblings(lbl, last.value, |o.siblings| / HASH_LEN);
        assert [] + o.siblings == o.siblings;
      }
  }

  lemma NoSiblings(lbl: Bytes, last: Trie, depth: nat)
    ensures Revealed(lbl, last, [], depth) == last
  {
  }

  // ---- binding

  lemma {:induction false} RevealedFind(lbl: Bytes, last: Trie, siblings: Bytes, depth: nat)
    requires last.Empty? || last.Leaf?
    ensures Find(Revealed(lbl, last, siblings, depth), lbl, depth) == Find(last, lbl, 0)
  {
    if |siblings| >= HASH_LEN {
      RevealedFind(lbl, last, siblings[..|siblings| - HASH_LEN], depth + 1);
    }
  }

  /** What a caller of Verify claims about the label. */
  function Claim(inTree: bool, val: Slice): Option<Slice> {
    if inTree then Some(val) else None
  }

  lemma RevealedClaim(inTree: bool, lbl: Slice, val: Slice, proof: Bytes)
    requires RevealedTree(inTree, lbl, val, proof).Some?
    ensures var f := Find(RevealedTree(inTree, lbl, val, proof).value, lbl, 0);
            !f.Hidden? && FoundVal(f, lbl) == Claim(inTree, val)
  {
    var p := MerkleProofDecode(proof).val;
    RevealedFind(lbl, LastNode(inTree, lbl, val, p).value, p.siblings, 0);
  }

  /** The strings hashed while an accepted proof is verified. */
  ghost function VerifyPreimages(h: HashFn, inTree: bool, lbl: Slice, val: Slice, proof: Bytes): set<Bytes> {
    match RevealedTree(inTree, lbl, val, proof)
    case None => {}
    case Some(t) => Preimages(h, t)
  }

  /** For one label and one digest, whatever it is the digest of, two accepted proofs of different
      claims (two values, or membership and non-membership) yield a computed collision. The
      proofs may have different lengths. */
  lemma VerifyBinds(h: HashFn, lbl: Slice, dig: Bytes,
                    inTree: bool, val: Slice, proof: Bytes, inTree': bool, val': Slice, proof': Bytes)
    requires Accepts(h, inTree, lbl, val, proof, dig) && Accepts(h, inTree', lbl, val', proof', dig)
    requires Claim(inTree, val) != Claim(inTree', val')
    ensures var c := FindClash(h, RevealedTree(inTree, lbl, val, proof).value,
                                  RevealedTree(inTree', lbl, val', proof').value, lbl, 0);
            && IsCollision(h, c)
            && c.x in VerifyPreimages(h, inTree, lbl, val, proof)
            && c.y in VerifyPreimages(h, inTree', lbl, val', proof')
  {
    RevealedClaim(inTree, lbl, val, proof);
    RevealedClaim(inTree', lbl, val', proof');
    DigestBinds(h, RevealedTree(inTree, lbl, val, proof).value,
                   RevealedTree(inTree', lbl, val', proof').value, lbl, 0);
  }

  /** The digest of a stored map. */
  ghost function MapDigest(h: HashFn, m: KeyMap): Digest {
    Hash(h, TrieOf(m))
  }

  /** An accepted proof against the digest of a map states what the map holds, or the strings
      hashed for the proof and for the tree contain a computed collision. */
  lemma VerifyStatesContent(h: HashFn, m: KeyMap, inTree: bool, lbl: Slice, val: Slice, proof: Bytes)
    requires Accepts(h, inTree, lbl, val, proof, MapDigest(h, m))
    requires Claim(inTree, val) != Lookup(m, lbl)
    ensures var c := FindClash(h, RevealedTree(inTree, lbl, val, proof).value, TrieOf(m), lbl, 0);
            && IsCollision(h, c)
            && c.x in VerifyPreimages(h, inTree, lbl, val, proof)
            && c.y in Preimages(h, TrieOf(m))
  {
    RevealedClaim(inTree, lbl, val, proof);
    FindAgrees(TrieOf(m), [], lbl);
    DigestBinds(h, RevealedTree(inTree, lbl, val, proof).value, TrieOf(m), lbl, 0);
  }

  lemma VerifiedContent(h: HashFn, q: set<Bytes>, m: KeyMap, inTree: bool, lbl: Slice, val: Slice, proof: Bytes)
    requires Accepts(h, inTree, lbl, val, proof, MapDigest(h, m))
    requires VerifyPreimages(h, inTree, lbl, val, proof) <= q && Preimages(h, TrieOf(m)) <= q
    requires CollisionFree(h, q)
    ensures Lookup(m, lbl) == Claim(inTree, val)
  {
    if Claim(inTree, val) != Lookup(m, lbl) {
      VerifyStatesContent(h, m, inTree, lbl, val, proof);
    }
  }

  // ---- proving

  const INT_PLACEHOLDER: Bytes := [0, 0, 0, 0, 0, 0, 0, 0]

  /** The hashes next to the label's path, deepest first, as find appends them. */
  function Siblings(h: HashFn, t: Trie, lbl: Bytes, depth: nat): Bytes {
    match t
    case Inner(a, b) =>
      if GetBit(lbl, depth) then Siblings(h, b, lbl, depth + 1) + Hash(h, a)
      else Siblings(h, a, lbl, depth + 1) + Hash(h, b)
    case _ => []
  }

  lemma {:induction false} SiblingsLength(h: HashFn, t: Trie, p: seq<bool>, lbl: Bytes)
    requires WellFormed(t, p)
    ensures |Siblings(h, t, lbl, |p|)| % HASH_LEN == 0
    ensures |Siblings(h, t, lbl, |p|)| <= HASH_LEN * (LABEL_BITS - |p|)
  {
    if t.Inner? {
      SiblingsLength(h, t.child0, p + [false], lbl);
      SiblingsLength(h, t.child1, p + [true], lbl);
    }
  }

  /** The end of the label's path. */
  function EndOfPath(t: Trie, lbl: Bytes, depth: nat): Trie {
    match t
    case Inner(a, b) => EndOfPath(if GetBit(lbl, depth) then b else a, lbl, depth + 1)
    case _ => t
  }

  lemma {:induction false} EndOfPathKind(t: Trie, p: seq<bool>, lbl: Bytes)
    requires WellFormed(t, p)
    ensures EndOfPath(t, lbl, |p|).Empty? || EndOfPath(t, lbl, |p|).Leaf?
    ensures Find(t, lbl, |p|) == Find(EndOfPath(t, lbl, |p|), lbl, 0)
  {
    if t.Inner? {
      EndOfPathKind(t.child0, p + [false], lbl);
      EndOfPathKind(t.child1, p + [true], lbl);
    }
  }

  /** Folding the siblings that the tree hands out gives back the digest of the tree. */
  lemma {:induction false} SiblingsFold(h: HashFn, t: Trie, lbl: Bytes, depth: nat)
    ensures Hash(h, Revealed(lbl, EndOfPath(t, lbl, depth), Siblings(h, t, lbl, depth), depth)) == Hash(h, t)
  {
    match t
    case Inner(a, b) =>
      var (child, sib) := if GetBit(lbl, depth) then (b, a) else (a, b);
      SiblingsFold(h, child, lbl, depth + 1);
      var deeper := Siblings(h, child, lbl, depth + 1);
      var end := EndOfPath(t, lbl, depth);
      FoldStep(h, lbl, end, deeper, Hash(h, sib), depth);
      HashJoin(h, GetBit(lbl, depth), child, sib);
    case _ =>
  }

  /** The proof that the tree is meant to hand out, from the end of the path and its siblings. */
  function ProofFrom(found: Found, siblings: Slice, lbl: Bytes): MerkleProof {
    if found.At? && found.lbl != lbl then MerkleProof(siblings, true, found.lbl, found.val)
    else MerkleProof(siblings, false, [], [])
  }

  ghost function ProofOf(h: HashFn, m: KeyMap, lbl: Bytes): MerkleProof {
    SiblingsLength(h, TrieOf(m), [], lbl);
    ProofFrom(Find(TrieOf(m), lbl, 0), Siblings(h, TrieOf(m), lbl, 0), lbl)
  }

  datatype ProveResult = ProveResult(inTree: bool, val: Slice, proof: Bytes)

  /** UInt64Put: overwrite the first 8 bytes. */
  function UInt64Put(b: Bytes, n: U64): Bytes
    requires |b| >= 8
  {
    IntBytes(n) + b[8..]
  }

  /** What Prove answers for a map: its content and the encoding of the intended proof. */
  ghost function ProveFor(h: HashFn, m: KeyMap, lbl: Slice): ProveResult {
    match Lookup(m, lbl)
    case Some(v) => ProveResult(true, v, ProofBytes(h, m, lbl))
    case None => ProveResult(false, [], ProofBytes(h, m, lbl))
  }

  ghost function ProofBytes(h: HashFn, m: KeyMap, lbl: Bytes): Bytes {
    MerkleProofEncode([], ProofOf(h, m, lbl))
  }

  /** The bytes assembled by prove are the encoding of the proof struct. */
  lemma AssembledBytes(siblings: Slice, flag: bool, l: Slice, v: Slice)
    requires |siblings| + 8 < U64_BOUND
    ensures WriteInt(WriteInt(WriteBool(UInt64Put(INT_PLACEHOLDER + siblings, |siblings|), flag), |l|) + l, |v|) + v
            == MerkleProofEncode([], MerkleProof(siblings, flag, l, v))
  {
    assert UInt64Put(INT_PLACEHOLDER + siblings, |siblings|) == [] + SliceBytes(siblings);
  }

  /** For empty leaf fields, prove writes the two zero lengths only. */
  lemma AssembledEmpty(siblings: Slice)
    requires |siblings| + 8 < U64_BOUND
    ensures WriteInt(WriteInt(WriteBool(UInt64Put(INT_PLACEHOLDER + siblings, |siblings|), false), 0), 0)
            == MerkleProofEncode([], MerkleProof(siblings, false, [], []))
  {
    AssembledBytes(siblings, false, [], []);
    assert forall b: Bytes :: b + [] == b;
  }

  /** The second half of prove: patch the header and append the leaf, if another one was found. */
  method FinishProof(lbl: Bytes, found: Found, proof0: Bytes, ghost siblings: Slice) returns (r: ProveResult)
    requires proof0 == INT_PLACEHOLDER + siblings && |siblings| + 8 < U64_BOUND
    ensures r.proof == MerkleProofEncode([], ProofFrom(found, siblings, lbl))
    ensures r.inTree <==> FoundVal(found, lbl).Some?
    ensures r.val == if r.inTree then found.val else []
  {
    var proof := UInt64Put(proof0, |proof0| - 8);
    if found.At? && found.lbl != lbl {
      proof := WriteBool(proof, true);
      proof := WriteInt(proof, |found.lbl|);
      proof := proof + found.lbl;
      proof := WriteInt(proof, |found.val|);
      proof := proof + found.val;
      AssembledBytes(siblings, true, found.lbl, found.val);
      return ProveResult(false, [], proof);
    }
    proof := WriteBool(proof, false);
    proof := WriteInt(proof, 0);
    proof := WriteInt(proof, 0);
    AssembledEmpty(siblings);
    return if found.At? then ProveResult(true, found.val, proof) else ProveResult(false, [], proof);
  }

  lemma ProveForFound(h: HashFn, m: KeyMap, lbl: Slice, found: Found, siblings: Slice, proof: Bytes)
    requires found == Find(TrieOf(m), lbl, 0) && siblings == Siblings(h, TrieOf(m), lbl, 0)
    requires proof == MerkleProofEncode([], ProofFrom(found, siblings, lbl))
    ensures ProveFor(h, m, lbl)
            == if FoundVal(found, lbl).Some? then ProveResult(true, found.val, proof) else ProveResult(false, [], proof)
  {
    FindAgrees(TrieOf(m), [], lbl);
  }

  lemma EndIsLast(end: Trie, siblings: Slice, lbl: Slice)
    requires end.Empty? || end.Leaf?
    ensures var found := Find(end, lbl, 0);
            var inTree := FoundVal(found, lbl).Some?;
            LastNode(inTree, lbl, if inTree then found.val else [], ProofFrom(found, siblings, lbl)) == Some(end)
  {
  }

  lemma ProofTree(inTree: bool, lbl: Slice, val: Slice, o: MerkleProof, last: Trie)
    requires LastNode(inTree, lbl, val, o) == Some(last) && |o.siblings| % HASH_LEN == 0
    ensures RevealedTree(inTree, lbl, val, MerkleProofEncode([], o)) == Some(Revealed(lbl, last, o.siblings, 0))
  {
    MerkleProofRead(o, []);
    assert MerkleProofEncode([], o) + [] == MerkleProofEncode([], o);
  }

  /** Verify accepts what Prove answers, for every map and every label. */
  lemma ProveComplete(h: HashFn, m: KeyMap, lbl: Slice)
    ensures var r := ProveFor(h, m, lbl);
            Accepts(h, r.inTree, lbl, r.val, r.proof, MapDigest(h, m))
  {
    var t := TrieOf(m);
    var siblings := Siblings(h, t, lbl, 0);
    var end := EndOfPath(t, lbl, 0);
    SiblingsLength(h, t, [], lbl);
    EndOfPathKind(t, [], lbl);
    EndIsLast(end, siblings, lbl);
    var r, o := ProveFor(h, m, lbl), ProofOf(h, m, lbl);
    ProveForFound(h, m, lbl, Find(t, lbl, 0), siblings, r.proof);
    ProofTree(r.inTree, lbl, r.val, o, end);
    SiblingsFold(h, t, lbl, 0);
  }

  /** What Prove answers decodes with no byte left; the proof has the other leaf that the label's path
      ends in, if there is one, and no leaf otherwise. */
  lemma ProofDecodes(h: HashFn, m: KeyMap, lbl: Slice)
    ensures var r, f := ProveFor(h, m, lbl), Find(TrieOf(m), lbl, 0);
            && (r.inTree <==> lbl in m) && r.val == (if lbl in m then m[lbl] else [])
            && MerkleProofDecode(r.proof).Ok? && MerkleProofDecode(r.proof).rest == []
            && var o := MerkleProofDecode(r.proof).val;
               && o.siblings == Siblings(h, TrieOf(m), lbl, 0)
               && (o.foundOtherLeaf <==> f.At? && f.lbl != lbl)
               && (o.foundOtherLeaf ==> o.leafLabel == f.lbl && o.leafVal == f.val)
               && (!o.foundOtherLeaf ==> o.leafLabel == o.leafVal == [])
               && (r.inTree ==> !o.foundOtherLeaf)
  {
    hide Siblings, MerkleProofDecode, MerkleProofEncode;
    SiblingsLength(h, TrieOf(m), [], lbl);
    FindAgrees(TrieOf(m), [], lbl);
    MerkleProofRead(ProofOf(h, m, lbl), []);
    assert ProofBytes(h, m, lbl) + [] == ProofBytes(h, m, lbl);
  }
}
