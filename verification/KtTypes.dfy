/** Messages of the kt package, the encodings that are hashed, signed or fed to the VRF,
    and the cryptographic interface the protocol relies on. */
module KtTypes {
  import opened Bytes

  // ---- cryptography

  /** Hash, signature and VRF functions, all arbitrary. A VRF public key determines one output per
      input (full uniqueness); vrfOk says which proofs are accepted for it. */
  datatype Crypto = Crypto(
    hash: HashFn,
    sign: (Bytes, Bytes) -> Bytes,            // secret key, message
    sigOk: (Bytes, Bytes, Bytes) -> bool,     // public key, message, signature
    vrfOut: (Bytes, Bytes) -> Digest,         // public key, input
    vrfProve: (Bytes, Bytes) -> Bytes,        // secret key, input
    vrfOk: (Bytes, Bytes, Bytes) -> bool)     // public key, input, proof

  /** What is signed with sk is accepted under pk. */
  ghost predicate SigKeyPair(c: Crypto, sk: Bytes, pk: Bytes) {
    forall msg :: c.sigOk(pk, msg, c.sign(sk, msg))
  }

  /** What is proved with sk is accepted under pk. */
  ghost predicate VrfKeyPair(c: Crypto, sk: Bytes, pk: Bytes) {
    forall data :: c.vrfOk(pk, data, c.vrfProve(sk, data))
  }

  // ---- messages

  datatype PreSigDig = PreSigDig(epoch: U64, dig: Slice)
  datatype SigDig = SigDig(epoch: U64, dig: Slice, sig: Bytes)
  datatype MapLabelPre = MapLabelPre(uid: U64, ver: U64)
  datatype CommitOpen = CommitOpen(val: Slice, rand: Slice)
  datatype MapValPre = MapValPre(epoch: U64, pkCommit: Slice)
  datatype Memb = Memb(labelProof: Bytes, epochAdded: U64, pkOpen: CommitOpen, merkleProof: Bytes)
  datatype MembHide = MembHide(labelProof: Bytes, mapVal: Slice, merkleProof: Bytes)
  datatype NonMemb = NonMemb(labelProof: Bytes, merkleProof: Bytes)
  datatype UpdateProof = UpdateProof(updates: map<Slice, Slice>, sig: Bytes)
  datatype AdtrEpochInfo = AdtrEpochInfo(dig: Slice, servSig: Bytes, adtrSig: Bytes)

  // ---- encodings

  function PreSigDigEncode(b0: Bytes, o: PreSigDig): Bytes {
    var b := WriteInt(b0, o.epoch);
    WriteSlice1D(b, o.dig)
  }

  function MapLabelPreEncode(b0: Bytes, o: MapLabelPre): Bytes {
    var b := WriteInt(b0, o.uid);
    WriteInt(b, o.ver)
  }

  function CommitOpenEncode(b0: Bytes, o: CommitOpen): Bytes {
    var b := WriteSlice1D(b0, o.val);
    WriteSlice1D(b, o.rand)
  }

  function MapValPreEncode(b0: Bytes, o: MapValPre): Bytes {
    var b := WriteInt(b0, o.epoch);
    WriteSlice1D(b, o.pkCommit)
  }

  function MapValPreDecode(b0: Bytes): Dec<MapValPre> {
    match ReadInt(b0) case Bad => Bad case Ok(a1, b1) =>
    match ReadSlice1D(b1) case Bad => Bad case Ok(a2, b2) =>
    Ok(MapValPre(a1, a2), b2)
  }

  /** A signed message determines the epoch and the digest. */
  lemma PreSigDigInjective(o: PreSigDig, o': PreSigDig)
    requires PreSigDigEncode([], o) == PreSigDigEncode([], o')
    ensures o == o'
  {
    assert PreSigDigEncode([], o) == IntBytes(o.epoch) + SliceBytes(o.dig);
    assert PreSigDigEncode([], o') == IntBytes(o'.epoch) + SliceBytes(o'.dig);
    IntPrefix(o.epoch, o'.epoch, SliceBytes(o.dig), SliceBytes(o'.dig));
    assert SliceBytes(o.dig) + [] == SliceBytes(o'.dig) + [];
    SlicePrefix(o.dig, o'.dig, [], []);
  }

  /** A commitment opening is determined by what is hashed. */
  lemma CommitOpenInjective(o: CommitOpen, o': CommitOpen)
    requires CommitOpenEncode([], o) == CommitOpenEncode([], o')
    ensures o == o'
  {
    assert CommitOpenEncode([], o) == SliceBytes(o.val) + SliceBytes(o.rand);
    assert CommitOpenEncode([], o') == SliceBytes(o'.val) + SliceBytes(o'.rand);
    SlicePrefix(o.val, o'.val, SliceBytes(o.rand), SliceBytes(o'.rand));
    assert SliceBytes(o.rand) + [] == SliceBytes(o'.rand) + [];
    SlicePrefix(o.rand, o'.rand, [], []);
  }

  lemma MapValPreRead(o: MapValPre, tail: Bytes)
    ensures MapValPreDecode(MapValPreEncode([], o) + tail) == Ok(o, tail)
  {
    assert MapValPreEncode([], o) + tail == IntBytes(o.epoch) + (SliceBytes(o.pkCommit) + tail);
    IntRead(o.epoch, SliceBytes(o.pkCommit) + tail);
    SliceRead(o.pkCommit, tail);
  }

  /** Bytes that the decoder consumes fully are exactly the encoding of what it returns. */
  lemma MapValPreExact(b: Bytes, o: MapValPre)
    ensures MapValPreDecode(b) == Ok(o, []) <==> b == MapValPreEncode([], o)
  {
    if MapValPreDecode(b) == Ok(o, []) {
      IntExact(b);
      SliceExact(ReadInt(b).rest);
      assert b == IntBytes(o.epoch) + (SliceBytes(o.pkCommit) + []);
      assert b == MapValPreEncode([], o);
    }
    if b == MapValPreEncode([], o) {
      MapValPreRead(o, []);
      assert b + [] == b;
    }
  }

  // ---- map labels and values

  /** Where the key map keeps a version: the VRF's output for it under the server's key. */
  function MapLabel(c: Crypto, vrfPk: Bytes, uid: U64, ver: U64): Digest {
    c.vrfOut(vrfPk, MapLabelPreEncode([], MapLabelPre(uid, ver)))
  }

  function Commit(c: Crypto, open: CommitOpen): Digest {
    c.hash(CommitOpenEncode([], open))
  }

  /** What the key map keeps of a version: the epoch it was added in, and a commitment to its key. */
  function CompMapVal(c: Crypto, epoch: U64, open: CommitOpen): (v: Slice)
    ensures |v| == 8 + 8 + HASH_LEN
  {
    MapValPreEncode([], MapValPre(epoch, Commit(c, open)))
  }

  /** Equal map values have equal epochs and commitments. */
  lemma CompMapValInjective(c: Crypto, epoch: U64, open: CommitOpen, epoch': U64, open': CommitOpen)
    requires CompMapVal(c, epoch, open) == CompMapVal(c, epoch', open')
    ensures epoch == epoch' && Commit(c, open) == Commit(c, open')
  {
    MapValPreExact(CompMapVal(c, epoch, open), MapValPre(epoch, Commit(c, open)));
    MapValPreExact(CompMapVal(c, epoch, open), MapValPre(epoch', Commit(c, open')));
  }

  /** The epoch that a well-formed map value carries. */
  function ValEpoch(val: Bytes): Option<U64> {
    match MapValPreDecode(val)
    case Bad => None
    case Ok(v, rest) => if rest == [] then Some(v.epoch) else None
  }

  /** The bytes are exactly the encoding of a map value of this epoch, with some commitment. */
  ghost predicate IsMapVal(val: Bytes, epoch: U64) {
    exists commit: Slice :: val == MapValPreEncode([], MapValPre(epoch, commit))
  }

  lemma ValEpochIff(val: Bytes, epoch: U64)
    ensures ValEpoch(val) == Some(epoch) <==> IsMapVal(val, epoch)
  {
    hide MapValPreDecode, MapValPreEncode;
    if ValEpoch(val) == Some(epoch) {
      var o := MapValPreDecode(val).val;
      MapValPreExact(val, o);
      assert o == MapValPre(epoch, o.pkCommit);
    }
    if IsMapVal(val, epoch) {
      var commit: Slice :| val == MapValPreEncode([], MapValPre(epoch, commit));
      MapValPreExact(val, MapValPre(epoch, commit));
    }
  }

  lemma CompMapValEpoch(c: Crypto, epoch: U64, open: CommitOpen)
    ensures ValEpoch(CompMapVal(c, epoch, open)) == Some(epoch)
  {
    MapValPreExact(CompMapVal(c, epoch, open), MapValPre(epoch, Commit(c, open)));
  }
}
