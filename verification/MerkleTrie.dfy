/** The Merkle tree as a value: the binary radix trie that the heap tree of merkle.go represents,
    its insertion, lookup and hashes. Depth in the trie is the length of a path of label bits. */
module MerkleTrie {
  import opened Bytes

  /** Cut stands for a subtree of which only the hash is known; it occurs in the part of a tree
      that a proof reveals, never in a tree that is stored. */
  datatype Trie =
    | Empty
    | Leaf(lbl: Slice, val: Slice)
    | Inner(child0: Trie, child1: Trie)
    | Cut(hash: Digest)

  const LABEL_BITS: nat := 8 * HASH_LEN

  // ---- label bits

  /** x & (1 << off) != 0. */
  function ByteBit(x: nat, off: nat): bool {
    if off == 0 then x % 2 == 1 else ByteBit(x / 2, off - 1)
  }

  /** Bit n of b, least significant bit of each byte first; false beyond the end. */
  function GetBit(b: Bytes, n: nat): bool {
    n / 8 < |b| && ByteBit(b[n / 8], n % 8)
  }

  /** Bit off of a byte is worth 2^off. */
  lemma {:induction false} ByteBitDiv(x: nat, off: nat)
    ensures Pow2(off) > 0 && (ByteBit(x, off) <==> x / Pow2(off) % 2 == 1)
  {
    if off > 0 {
      ByteBitDiv(x / 2, off - 1);
      DivDiv(x, 2, Pow2(off - 1));
    }
  }

  lemma GetBitIs(b: Bytes, n: nat)
    ensures Pow2(n % 8) > 0
    ensures GetBit(b, n) <==> n / 8 < |b| && b[n / 8] / Pow2(n % 8) % 2 == 1
  {
    if n / 8 < |b| {
      ByteBitDiv(b[n / 8], n % 8);
    } else {
      ByteBitDiv(0, n % 8);
    }
  }

  function Pow2(k: nat): nat {
    if k == 0 then 1 else 2 * Pow2(k - 1)
  }

  lemma {:induction false} BitsDetermineByte(x: nat, y: nat, width: nat)
    requires x < Pow2(width) && y < Pow2(width)
    requires forall off: nat | off < width :: ByteBit(x, off) == ByteBit(y, off)
    ensures x == y
  {
    if width > 0 {
      forall off: nat | off < width - 1
        ensures ByteBit(x / 2, off) == ByteBit(y / 2, off)
      {
        assert ByteBit(x, off + 1) == ByteBit(y, off + 1);
      }
      BitsDetermineByte(x / 2, y / 2, width - 1);
      assert ByteBit(x, 0) == ByteBit(y, 0);
    }
  }

  /** Two distinct 32-byte labels differ at one of the first 256 bits: why insertion stops. */
  lemma BitsDetermineLabel(a: Bytes, b: Bytes)
    requires |a| == HASH_LEN && |b| == HASH_LEN
    requires forall n: nat | n < LABEL_BITS :: GetBit(a, n) == GetBit(b, n)
    ensures a == b
  {
    forall i: nat | i < HASH_LEN
      ensures a[i] == b[i]
    {
      forall off: nat | off < 8
        ensures ByteBit(a[i], off) == ByteBit(b[i], off)
      {
        var n := 8 * i + off;
        assert n / 8 == i && n % 8 == off;
        assert GetBit(a, n) == GetBit(b, n);
      }
      assert Pow2(8) == 256;
      BitsDetermineByte(a[i], b[i], 8);
    }
  }

  // ---- well-formed tries

  /** The label is 32 bytes long and its first bits are p. */
  ghost predicate Follows(lbl: Bytes, p: seq<bool>) {
    IsLabel(lbl) && |p| <= LABEL_BITS && forall i: nat | i < |p| :: GetBit(lbl, i) == p[i]
  }

  /** A trie hanging at path p: every leaf is on the path its label names, and no inner node
      could be replaced by one of its children (so it has at least two leaves below it). */
  ghost predicate WellFormed(t: Trie, p: seq<bool>)
    decreases t
  {
    match t
    case Empty => |p| <= LABEL_BITS
    case Leaf(lbl, _) => Follows(lbl, p)
    case Inner(a, b) =>
      && |p| < LABEL_BITS
      && WellFormed(a, p + [false]) && WellFormed(b, p + [true])
      && (a.Empty? ==> b.Inner?) && (b.Empty? ==> a.Inner?)
    case Cut(_) => false
  }

  function Entries(t: Trie): map<Slice, Slice> {
    match t
    case Empty => map[]
    case Leaf(lbl, val) => map[lbl := val]
    case Inner(a, b) => Entries(a) + Entries(b)
    case Cut(_) => map[]
  }

  lemma {:induction false} EntriesFollow(t: Trie, p: seq<bool>)
    requires WellFormed(t, p)
    ensures forall l | l in Entries(t) :: Follows(l, p)
  {
    if t.Inner? {
      EntriesFollow(t.child0, p + [false]);
      EntriesFollow(t.child1, p + [true]);
      forall l | l in Entries(t)
        ensures Follows(l, p)
      {
        var bit := l !in Entries(t.child0);
        assert Follows(l, p + [bit]);
        assert forall i: nat | i < |p| :: (p + [bit])[i] == p[i];
      }
    }
  }

  /** The entries of an inner node are split by the bit at its depth. */
  lemma InnerEntries(t: Trie, p: seq<bool>, l: Slice)
    requires WellFormed(t, p) && t.Inner?
    ensures l in Entries(t.child0) <==> l in Entries(t) && !GetBit(l, |p|)
    ensures l in Entries(t.child1) <==> l in Entries(t) && GetBit(l, |p|)
    ensures l in Entries(t.child0) ==> Entries(t)[l] == Entries(t.child0)[l]
    ensures l in Entries(t.child1) ==> Entries(t)[l] == Entries(t.child1)[l]
  {
    EntriesFollow(t.child0, p + [false]);
    EntriesFollow(t.child1, p + [true]);
    if l in Entries(t.child0) {
      assert Follows(l, p + [false]) && (p + [false])[|p|] == false;
    }
    if l in Entries(t.child1) {
      assert Follows(l, p + [true]) && (p + [true])[|p|] == true;
    }
  }

  /** No entry: the empty trie. One entry: a leaf. Two entries or more: an inner node. */
  lemma {:induction false} InnerHasTwo(t: Trie, p: seq<bool>) returns (l: Slice, l': Slice)
    requires WellFormed(t, p) && t.Inner?
    ensures l != l' && l in Entries(t) && l' in Entries(t)
  {
    if t.child0.Inner? {
      l, l' := InnerHasTwo(t.child0, p + [false]);
    } else if t.child1.Inner? {
      l, l' := InnerHasTwo(t.child1, p + [true]);
    } else {
      l, l' := t.child0.lbl, t.child1.lbl;
      InnerEntries(t, p, l);
      InnerEntries(t, p, l');
    }
  }

  lemma ChildEntries(t: Trie, u: Trie, p: seq<bool>)
    requires WellFormed(t, p) && WellFormed(u, p) && Entries(t) == Entries(u) && t.Inner? && u.Inner?
    ensures Entries(t.child0) == Entries(u.child0) && Entries(t.child1) == Entries(u.child1)
  {
    forall l: Slice
      ensures l in Entries(t.child0) <==> l in Entries(u.child0)
      ensures l in Entries(t.child1) <==> l in Entries(u.child1)
      ensures l in Entries(t.child0) ==> Entries(t.child0)[l] == Entries(u.child0)[l]
      ensures l in Entries(t.child1) ==> Entries(t.child1)[l] == Entries(u.child1)[l]
    {
      InnerEntries(t, p, l);
      InnerEntries(u, p, l);
    }
  }

  /** The trie is canonical: it is determined by the map it stores, however it was built. */
  lemma {:induction false} Canonical(t: Trie, u: Trie, p: seq<bool>)
    requires WellFormed(t, p) && WellFormed(u, p) && Entries(t) == Entries(u)
    ensures t == u
  {
    if t.Inner? && u.Inner? {
      ChildEntries(t, u, p);
      Canonical(t.child0, u.child0, p + [false]);
      Canonical(t.child1, u.child1, p + [true]);
    } else if t.Inner? {
      var l, l' := InnerHasTwo(t, p);
    } else if u.Inner? {
      var l, l' := InnerHasTwo(u, p);
    } else {
      assert t.Leaf? ==> t.lbl in Entries(u) && Entries(u)[t.lbl] == t.val;
      assert u.Leaf? ==> u.lbl in Entries(t);
    }
  }

  // ---- insertion

  lemma PathLeavesRoom(lbl: Bytes, lbl': Bytes, p: seq<bool>)
    requires Follows(lbl, p) && Follows(lbl', p) && lbl != lbl'
    ensures |p| < LABEL_BITS
  {
    if |p| == LABEL_BITS {
      BitsDetermineLabel(lbl, lbl');
    }
  }

  lemma FollowsNext(lbl: Bytes, p: seq<bool>)
    requires Follows(lbl, p) && |p| < LABEL_BITS
    ensures Follows(lbl, p + [GetBit(lbl, |p|)])
  {
  }

  function Join(bit: bool, onPath: Trie, sibling: Trie): Trie {
    if bit then Inner(sibling, onPath) else Inner(onPath, sibling)
  }

  /** put of merkle.go: the trie at path p after inserting label. */
  ghost function Put(t: Trie, p: seq<bool>, lbl: Slice, val: Slice): Trie
    requires WellFormed(t, p) && Follows(lbl, p)
    decreases LABEL_BITS - |p|
  {
    match t
    case Empty => Leaf(lbl, val)
    case Leaf(lbl', _) =>
      if lbl == lbl' then Leaf(lbl, val)
      else
        PathLeavesRoom(lbl, lbl', p); FollowsNext(lbl, p); FollowsNext(lbl', p);
        var bit := GetBit(lbl, |p|);
        if GetBit(lbl', |p|) == bit then Join(bit, Put(t, p + [bit], lbl, val), Empty)
        else Join(bit, Put(Empty, p + [bit], lbl, val), t)
    case Inner(a, b) =>
      FollowsNext(lbl, p);
      if GetBit(lbl, |p|) then Inner(a, Put(b, p + [true], lbl, val))
      else Inner(Put(a, p + [false], lbl, val), b)
  }

  lemma {:induction false} PutWellFormed(t: Trie, p: seq<bool>, lbl: Slice, val: Slice)
    requires WellFormed(t, p) && Follows(lbl, p)
    ensures WellFormed(Put(t, p, lbl, val), p)
    ensures !Put(t, p, lbl, val).Empty?
    ensures t.Inner? || (t.Leaf? && t.lbl != lbl) ==> Put(t, p, lbl, val).Inner?
    decreases LABEL_BITS - |p|
  {
    match t
    case Empty =>
    case Leaf(lbl', val') =>
      if lbl != lbl' {
        PathLeavesRoom(lbl, lbl', p);
        FollowsNext(lbl, p);
        FollowsNext(lbl', p);
        var bit := GetBit(lbl, |p|);
        if GetBit(lbl', |p|) == bit {
          PutWellFormed(t, p + [bit], lbl, val);
        } else {
          assert p + [GetBit(lbl', |p|)] == p + [!bit];
        }
      }
    case Inner(a, b) =>
      FollowsNext(lbl, p);
      if GetBit(lbl, |p|) {
        PutWellFormed(b, p + [true], lbl, val);
      } else {
        PutWellFormed(a, p + [false], lbl, val);
      }
  }

  /** Insertion updates the map that the trie stores at the given label, and nothing else. */
  lemma {:induction false} PutEntries(t: Trie, p: seq<bool>, lbl: Slice, val: Slice)
    requires WellFormed(t, p) && Follows(lbl, p)
    ensures Entries(Put(t, p, lbl, val)) == Entries(t)[lbl := val]
    decreases LABEL_BITS - |p|
  {
    if t.Inner? {
      PutEntriesInner(t, p, lbl, val);
    } else if t.Leaf? && t.lbl != lbl {
      PathLeavesRoom(lbl, t.lbl, p);
      FollowsNext(lbl, p);
      FollowsNext(t.lbl, p);
      var bit := GetBit(lbl, |p|);
      if GetBit(t.lbl, |p|) == bit {
        PutEntries(t, p + [bit], lbl, val);
      }
    }
  }

  lemma {:induction false} PutEntriesInner(t: Trie, p: seq<bool>, lbl: Slice, val: Slice)
    requires WellFormed(t, p) && Follows(lbl, p) && t.Inner?
    ensures Entries(Put(t, p, lbl, val)) == Entries(t)[lbl := val]
    decreases LABEL_BITS - |p|, 0
  {
    FollowsNext(lbl, p);
    if GetBit(lbl, |p|) {
      PutEntries(t.child1, p + [true], lbl, val);
    } else {
      PutEntries(t.child0, p + [false], lbl, val);
      InnerEntries(t, p, lbl);
      assert lbl !in Entries(t.child1);
    }
  }

  // ---- lookup

  /** Where the bits of a label lead: to no leaf, to a leaf (of this label or another one), or
      to a subtree that is not known. */
  datatype Found = Nothing | At(lbl: Slice, val: Slice) | Hidden

  function Find(t: Trie, lbl: Bytes, depth: nat): Found {
    match t
    case Empty => Nothing
    case Leaf(lbl', val) => At(lbl', val)
    case Inner(a, b) => Find(if GetBit(lbl, depth) then b else a, lbl, depth + 1)
    case Cut(_) => Hidden
  }

  /** The value stored for a label, as the map of entries has it. */
  ghost function Lookup(m: map<Slice, Slice>, lbl: Bytes): Option<Slice> {
    if |lbl| < U64_BOUND && lbl in m then Some(m[lbl]) else None
  }

  function FoundVal(f: Found, lbl: Bytes): Option<Slice> {
    if f.At? && f.lbl == lbl then Some(f.val) else None
  }

  /** Following the label's bits finds exactly what the map stores, for labels of any length. */
  lemma {:induction false} FindAgrees(t: Trie, p: seq<bool>, lbl: Bytes)
    requires WellFormed(t, p)
    ensures !Find(t, lbl, |p|).Hidden?
    ensures FoundVal(Find(t, lbl, |p|), lbl) == Lookup(Entries(t), lbl)
  {
    if t.Inner? {
      FindAgrees(t.child0, p + [false], lbl);
      FindAgrees(t.child1, p + [true], lbl);
      if |lbl| < U64_BOUND {
        InnerEntries(t, p, lbl);
      }
    }
  }

  /** What is found at the end of a path is an entry. */
  lemma {:induction false} FoundIsEntry(t: Trie, p: seq<bool>, lbl: Bytes)
    requires WellFormed(t, p) && Find(t, lbl, |p|).At?
    ensures var f := Find(t, lbl, |p|); f.lbl in Entries(t) && Entries(t)[f.lbl] == f.val && Follows(f.lbl, p)
  {
    EntriesFollow(t, p);
    if t.Inner? {
      var bit := GetBit(lbl, |p|);
      FoundIsEntry(if bit then t.child1 else t.child0, p + [bit], lbl);
      InnerEntries(t, p, Find(t, lbl, |p|).lbl);
    }
  }

  // ---- the trie of a map

  predicate IsLabel(l: Bytes) {
    |l| == HASH_LEN
  }

  /** Keys of every stored map are 32 bytes long. */
  type KeyMap = m: map<Slice, Slice> | forall l | l in m :: IsLabel(l)

  ghost predicate Represents(t: Trie, m: KeyMap) {
    WellFormed(t, []) && Entries(t) == m
  }

  lemma PutRepresents(t: Trie, m: KeyMap, lbl: Slice, val: Slice)
    requires Represents(t, m) && |lbl| == HASH_LEN
    ensures Represents(Put(t, [], lbl, val), m[lbl := val])
  {
    PutWellFormed(t, [], lbl, val);
    PutEntries(t, [], lbl, val);
  }

  lemma {:induction false} TrieExists(m: KeyMap) returns (t: Trie)
    ensures Represents(t, m)
    decreases |m.Keys|
  {
    if m.Keys == {} {
      t := Empty;
      assert m == map[];
    } else {
      var l :| l in m.Keys;
      var rest: KeyMap := map k | k in m && k != l :: m[k];
      assert rest.Keys == m.Keys - {l};
      t := TrieExists(rest);
      PutRepresents(t, rest, l, m[l]);
      t := Put(t, [], l, m[l]);
      assert rest[l := m[l]] == m;
    }
  }

  ghost function TrieOf(m: KeyMap): (t: Trie)
    ensures Represents(t, m)
  {
    assert exists t :: Represents(t, m) by {
      var t := TrieExists(m);
    }
    var t :| Represents(t, m);
    t
  }

  lemma TrieOfUnique(t: Trie, m: KeyMap)
    requires Represents(t, m)
    ensures t == TrieOf(m)
  {
    Canonical(t, TrieOf(m), []);
  }

  datatype PutArgs = PutArgs(lbl: Digest, val: Slice)

  /** The trie, and the map, after a sequence of puts into an empty tree. */
  ghost function TrieAfter(puts: seq<PutArgs>): (t: Trie)
    ensures WellFormed(t, [])
  {
    if puts == [] then Empty
    else
      var t, last := TrieAfter(puts[..|puts| - 1]), puts[|puts| - 1];
      PutWellFormed(t, [], last.lbl, last.val);
      Put(t, [], last.lbl, last.val)
  }

  function MapAfter(puts: seq<PutArgs>): KeyMap {
    if puts == [] then map[] else MapAfter(puts[..|puts| - 1])[puts[|puts| - 1].lbl := puts[|puts| - 1].val]
  }

  lemma {:induction false} PutsRefineMap(puts: seq<PutArgs>)
    ensures Represents(TrieAfter(puts), MapAfter(puts))
  {
    if puts != [] {
      var init, last := puts[..|puts| - 1], puts[|puts| - 1];
      PutsRefineMap(init);
      PutRepresents(TrieAfter(init), MapAfter(init), last.lbl, last.val);
    }
  }

  /** Two sequences of puts that store the same map, in any order and with any overwrites,
      build the same tree, hence the same digest. */
  lemma PutOrderIrrelevant(h: HashFn, puts: seq<PutArgs>, puts': seq<PutArgs>)
    requires MapAfter(puts) == MapAfter(puts')
    ensures TrieAfter(puts) == TrieAfter(puts')
    ensures Hash(h, TrieAfter(puts)) == Hash(h, TrieAfter(puts'))
  {
    PutsRefineMap(puts);
    PutsRefineMap(puts');
    Canonical(TrieAfter(puts), TrieAfter(puts'), []);
  }

  // ---- hashes

  const EMPTY_TAG: Byte := 0
  const LEAF_TAG: Byte := 1
  const INNER_TAG: Byte := 2

  function LeafPreimage(lbl: Slice, val: Slice): Bytes {
    [LEAF_TAG] + (SliceBytes(lbl) + SliceBytes(val))
  }

  function InnerPreimage(h0: Digest, h1: Digest): Bytes {
    [INNER_TAG] + (h0 + h1)
  }

  /** The bytes hashed at the root of t. */
  function Preimage(h: HashFn, t: Trie): Bytes
    requires !t.Cut?
    decreases t, 0
  {
    match t
    case Empty => [EMPTY_TAG]
    case Leaf(lbl, val) => LeafPreimage(lbl, val)
    case Inner(a, b) => InnerPreimage(Hash(h, a), Hash(h, b))
  }

  /** The digest of t. */
  function Hash(h: HashFn, t: Trie): Digest
    decreases t, 1
  {
    if t.Cut? then t.hash else h(Preimage(h, t))
  }

  /** Everything that is hashed to compute the digest of t. */
  ghost function Preimages(h: HashFn, t: Trie): set<Bytes> {
    match t
    case Cut(_) => {}
    case Inner(a, b) => {Preimage(h, t)} + Preimages(h, a) + Preimages(h, b)
    case _ => {Preimage(h, t)}
  }

  lemma PreimageInjective(h: HashFn, s: Trie, t: Trie)
    requires !s.Cut? && !t.Cut? && Preimage(h, s) == Preimage(h, t)
    ensures s.Empty? <==> t.Empty?
    ensures s.Leaf? <==> t.Leaf?
    ensures s.Leaf? ==> s == t
    ensures s.Inner? ==> Hash(h, s.child0) == Hash(h, t.child0) && Hash(h, s.child1) == Hash(h, t.child1)
  {
    var x, y := Preimage(h, s), Preimage(h, t);
    assert x[0] == y[0];
    if s.Leaf? {
      assert x[1..] == SliceBytes(s.lbl) + SliceBytes(s.val);
      assert y[1..] == SliceBytes(t.lbl) + SliceBytes(t.val);
      SlicePrefix(s.lbl, t.lbl, SliceBytes(s.val), SliceBytes(t.val));
      assert SliceBytes(s.val) + [] == SliceBytes(t.val) + [];
      SlicePrefix(s.val, t.val, [], []);
    } else if s.Inner? {
      assert x[1..33] == Hash(h, s.child0) && x[33..] == Hash(h, s.child1);
      assert y[1..33] == Hash(h, t.child0) && y[33..] == Hash(h, t.child1);
    }
  }

  // ---- binding

  /** What is hashed for a leaf, byte by byte: its tag, the label and the value behind their lengths. */
  lemma LeafLayout(lbl: Slice, val: Slice)
    ensures var x := LeafPreimage(lbl, val);
            && |x| == 1 + 8 + |lbl| + 8 + |val| && x[0] == 1 && x[1..9] == IntBytes(|lbl|)
            && x[9..9 + |lbl|] == lbl && x[9 + |lbl|..17 + |lbl|] == IntBytes(|val|) && x[17 + |lbl|..] == val
  {
  }

  /** And for an inner node: its tag, then the hash of the child for bit 0, then that for bit 1. An
      empty tree hashes the byte 0. */
  lemma InnerLayout(h: HashFn, a: Trie, b: Trie)
    ensures var x := Preimage(h, Inner(a, b));
            |x| == 65 && x[0] == 2 && x[1..33] == Hash(h, a) && x[33..] == Hash(h, b)
    ensures Preimage(h, Empty) == [0]
  {
  }

  datatype Clash = Clash(x: Bytes, y: Bytes)

  ghost predicate IsCollision(h: HashFn, c: Clash) {
    c.x != c.y && h(c.x) == h(c.y)
  }

  /** Walk down two (partly known) tries with the same digest along one label until what was
      hashed differs. */
  function FindClash(h: HashFn, s: Trie, t: Trie, lbl: Bytes, depth: nat): Clash
    decreases s
  {
    if s.Cut? || t.Cut? then Clash([], [])
    else if Preimage(h, s) != Preimage(h, t) || !s.Inner? || !t.Inner? then Clash(Preimage(h, s), Preimage(h, t))
    else if GetBit(lbl, depth) then FindClash(h, s.child1, t.child1, lbl, depth + 1)
    else FindClash(h, s.child0, t.child0, lbl, depth + 1)
  }

  /** A digest binds what every label leads to: two tries of equal digest that lead a label to
      different places yield a computed collision, among the strings hashed for the two. */
  lemma {:induction false} DigestBinds(h: HashFn, s: Trie, t: Trie, lbl: Bytes, depth: nat)
    requires Hash(h, s) == Hash(h, t)
    requires !Find(s, lbl, depth).Hidden? && !Find(t, lbl, depth).Hidden?
    requires Find(s, lbl, depth) != Find(t, lbl, depth)
    ensures var c := FindClash(h, s, t, lbl, depth);
            IsCollision(h, c) && c.x in Preimages(h, s) && c.y in Preimages(h, t)
    decreases s
  {
    if Preimage(h, s) == Preimage(h, t) {
      PreimageInjective(h, s, t);
      if GetBit(lbl, depth) {
        DigestBinds(h, s.child1, t.child1, lbl, depth + 1);
      } else {
        DigestBinds(h, s.child0, t.child0, lbl, depth + 1);
      }
    }
  }

  /** No two of these strings collide. */
  ghost predicate CollisionFree(h: HashFn, q: set<Bytes>) {
    forall x, y | x in q && y in q && h(x) == h(y) :: x == y
  }
}
