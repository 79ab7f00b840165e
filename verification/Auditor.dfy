/** kt/auditor.go: an append-only replica of the server's key map. */
module KtAuditor {
  import opened Bytes
  import opened MerkleTrie
  import opened MerkleProofs
  import opened KtTypes
  import Merkle

  /** maps[e] is the key map after epoch e; infos[e] what is published about it. */
  datatype AdtrState = AdtrState(maps: seq<KeyMap>, infos: seq<AdtrEpochInfo>)

  const INIT: AdtrState := AdtrState([], [])

  ghost function CurrentMap(maps: seq<KeyMap>): KeyMap {
    if maps == [] then map[] else maps[|maps| - 1]
  }

  /** The entry may be added in this epoch: a 32-byte label not in the map yet, with a value
      that is exactly the encoding of a MapVal of this epoch. */
  ghost predicate UpdateOk(m: KeyMap, epoch: U64, lbl: Slice, val: Slice) {
    IsLabel(lbl) && lbl !in m && ValEpoch(val) == Some(epoch)
  }

  ghost predicate UpdatesOk(m: KeyMap, epoch: U64, upd: map<Slice, Slice>) {
    forall l | l in upd :: UpdateOk(m, epoch, l, upd[l])
  }

  function SignDig(c: Crypto, sk: Bytes, epoch: U64, dig: Slice): Bytes {
    c.sign(sk, PreSigDigEncode([], PreSigDig(epoch, dig)))
  }

  ghost function AfterAccepted(c: Crypto, sk: Bytes, st: AdtrState, m: KeyMap, servSig: Bytes): AdtrState
    requires |st.maps| < U64_BOUND
  {
    var dig := MapDigest(c.hash, m);
    AdtrState(st.maps + [m], st.infos + [AdtrEpochInfo(dig, servSig, SignDig(c, sk, |st.maps|, dig))])
  }

  /** Update of the auditor: the new state, and whether the update was rejected. */
  ghost function AfterUpdate(c: Crypto, sk: Bytes, st: AdtrState, proof: UpdateProof): (AdtrState, bool)
    requires |st.maps| < U64_BOUND
  {
    if !UpdatesOk(CurrentMap(st.maps), |st.maps|, proof.updates) then (st, true)
    else (AfterAccepted(c, sk, st, CurrentMap(st.maps) + proof.updates, proof.sig), false)
  }

  /** Exactly which updates are accepted: labels are 32 bytes and new, and values are exactly encodings
      of map values of the next epoch. */
  lemma UpdateAcceptedIff(c: Crypto, sk: Bytes, st: AdtrState, proof: UpdateProof)
    requires |st.maps| < U64_BOUND
    ensures !AfterUpdate(c, sk, st, proof).1
            <==> forall l | l in proof.updates :: EntryOk(CurrentMap(st.maps), |st.maps|, l, proof.updates[l])
  {
    hide ValEpoch, IsMapVal;
    forall l | l in proof.updates
      ensures UpdateOk(CurrentMap(st.maps), |st.maps|, l, proof.updates[l])
              <==> EntryOk(CurrentMap(st.maps), |st.maps|, l, proof.updates[l])
    {
      ValEpochIff(proof.updates[l], |st.maps|);
    }
  }

  ghost predicate EntryOk(m: KeyMap, epoch: U64, lbl: Slice, val: Slice) {
    |lbl| == HASH_LEN && lbl !in m && IsMapVal(val, epoch)
  }

  // ---- what every run keeps

  ghost predicate Kept(m: KeyMap, m': KeyMap) {
    forall l | l in m :: l in m' && m'[l] == m[l]
  }

  /** Epoch maps only grow and never change an entry. */
  ghost predicate AppendOnly(maps: seq<KeyMap>) {
    forall i: nat, j: nat | i <= j < |maps| :: Kept(maps[i], maps[j])
  }

  /** The value carries e, and the entry is in exactly the maps from epoch e on. */
  ghost predicate BornAt(maps: seq<KeyMap>, l: Slice, e: U64) {
    && e < |maps| && l in maps[e] && ValEpoch(maps[e][l]) == Some(e)
    && forall j: nat | j < |maps| :: l in maps[j] <==> e <= j
  }

  ghost predicate BirthEpochs(maps: seq<KeyMap>)
    requires |maps| <= U64_BOUND
  {
    forall i: nat, l | i < |maps| && l in maps[i] ::
      ValEpoch(maps[i][l]).Some? && BornAt(maps, l, ValEpoch(maps[i][l]).value)
  }

  /** The epoch's published digest is the digest of the epoch's map, signed for this epoch. */
  ghost predicate Published(c: Crypto, sk: Bytes, st: AdtrState)
    requires |st.maps| <= U64_BOUND
  {
    && |st.maps| == |st.infos|
    && forall e: nat | e < |st.infos| ::
         && st.infos[e].dig == MapDigest(c.hash, st.maps[e])
         && st.infos[e].adtrSig == SignDig(c, sk, e, st.infos[e].dig)
  }

  ghost predicate Inv(c: Crypto, sk: Bytes, st: AdtrState) {
    |st.maps| <= U64_BOUND && AppendOnly(st.maps) && BirthEpochs(st.maps) && Published(c, sk, st)
  }

  lemma InvLengths(c: Crypto, sk: Bytes, st: AdtrState)
    requires Inv(c, sk, st)
    ensures |st.infos| == |st.maps|
  {
  }

  lemma InitInv(c: Crypto, sk: Bytes)
    ensures Inv(c, sk, INIT)
  {
  }

  lemma GrowKeepsAppendOnly(maps: seq<KeyMap>, m: KeyMap)
    requires AppendOnly(maps) && Kept(CurrentMap(maps), m)
    ensures AppendOnly(maps + [m])
  {
    forall i: nat | i < |maps|
      ensures Kept(maps[i], m)
    {
      assert Kept(maps[i], maps[|maps| - 1]);
    }
  }

  lemma BornEarlier(maps: seq<KeyMap>, l: Slice, e: U64, m: KeyMap)
    requires BornAt(maps, l, e) && l in m && m[l] == maps[e][l]
    ensures BornAt(maps + [m], l, e)
  {
  }

  lemma BornNow(maps: seq<KeyMap>, l: Slice, m: KeyMap)
    requires AppendOnly(maps) && |maps| < U64_BOUND
    requires l !in CurrentMap(maps) && l in m && ValEpoch(m[l]) == Some(|maps|)
    ensures BornAt(maps + [m], l, |maps|)
  {
    forall j: nat | j < |maps|
      ensures l !in maps[j]
    {
      assert Kept(maps[j], maps[|maps| - 1]);
    }
  }

  lemma GrowKeepsBirthEpochs(maps: seq<KeyMap>, upd: map<Slice, Slice>, m: KeyMap)
    requires |maps| < U64_BOUND && AppendOnly(maps) && BirthEpochs(maps)
    requires UpdatesOk(CurrentMap(maps), |maps|, upd) && m == CurrentMap(maps) + upd
    ensures BirthEpochs(maps + [m])
  {
    var maps', n := maps + [m], |maps|;
    forall i: nat, l | i < |maps'| && l in maps'[i]
      ensures ValEpoch(maps'[i][l]).Some? && BornAt(maps', l, ValEpoch(maps'[i][l]).value)
    {
      if i == n && l in upd {
        assert UpdateOk(CurrentMap(maps), n, l, upd[l]);
        BornNow(maps, l, m);
      } else {
        var k := if i < n then i else n - 1;
        var e := ValEpoch(maps[k][l]).value;
        assert BornAt(maps, l, e);
        assert Kept(maps[k], maps[n - 1]) && Kept(maps[n - 1], m) && Kept(maps[e], maps[n - 1]);
        BornEarlier(maps, l, e, m);
      }
    }
  }

  lemma UnionKeeps(m: KeyMap, epoch: U64, upd: map<Slice, Slice>)
    requires UpdatesOk(m, epoch, upd)
    ensures forall l | l in m + upd :: IsLabel(l)
    ensures Kept(m, m + upd)
  {
    assert forall l | l in upd :: UpdateOk(m, epoch, l, upd[l]);
  }

  lemma AcceptedPublished(c: Crypto, sk: Bytes, st: AdtrState, m: KeyMap, servSig: Bytes)
    requires |st.maps| < U64_BOUND && Published(c, sk, st)
    ensures Published(c, sk, AfterAccepted(c, sk, st, m, servSig))
  {
  }

  lemma AcceptedKeepsInv(c: Crypto, sk: Bytes, st: AdtrState, upd: map<Slice, Slice>, m: KeyMap, servSig: Bytes)
    requires Inv(c, sk, st) && |st.maps| < U64_BOUND
    requires UpdatesOk(CurrentMap(st.maps), |st.maps|, upd) && m == CurrentMap(st.maps) + upd
    ensures Inv(c, sk, AfterAccepted(c, sk, st, m, servSig))
  {
    UnionKeeps(CurrentMap(st.maps), |st.maps|, upd);
    GrowKeepsAppendOnly(st.maps, m);
    GrowKeepsBirthEpochs(st.maps, upd, m);
    AcceptedPublished(c, sk, st, m, servSig);
  }

  /** An accepted update keeps all of this; a rejected one changes nothing. */
  lemma UpdateKeepsInv(c: Crypto, sk: Bytes, st: AdtrState, proof: UpdateProof)
    requires Inv(c, sk, st) && |st.maps| < U64_BOUND
    ensures var (st', err) := AfterUpdate(c, sk, st, proof);
            Inv(c, sk, st') && (err ==> st' == st)
  {
    if UpdatesOk(CurrentMap(st.maps), |st.maps|, proof.updates) {
      UnionKeeps(CurrentMap(st.maps), |st.maps|, proof.updates);
      AcceptedKeepsInv(c, sk, st, proof.updates, CurrentMap(st.maps) + proof.updates, proof.sig);
    }
  }

  /** The state after any sequence of updates, accepted or rejected. */
  ghost function Run(c: Crypto, sk: Bytes, proofs: seq<UpdateProof>): (st: AdtrState)
    requires |proofs| < U64_BOUND
    ensures |st.maps| == |st.infos| <= |proofs|
  {
    if proofs == [] then INIT
    else AfterUpdate(c, sk, Run(c, sk, proofs[..|proofs| - 1]), proofs[|proofs| - 1]).0
  }

  lemma {:induction false} RunInv(c: Crypto, sk: Bytes, proofs: seq<UpdateProof>)
    requires |proofs| < U64_BOUND
    ensures Inv(c, sk, Run(c, sk, proofs))
  {
    if proofs == [] {
      InitInv(c, sk);
    } else {
      RunInv(c, sk, proofs[..|proofs| - 1]);
      UpdateKeepsInv(c, sk, Run(c, sk, proofs[..|proofs| - 1]), proofs[|proofs| - 1]);
    }
  }

  /** An entry never disappears and never changes, and the epoch it carries is the first epoch
      that has it: whatever the order and content of the updates that were sent. */
  lemma EntriesForever(c: Crypto, sk: Bytes, proofs: seq<UpdateProof>, i: nat, j: nat, l: Slice)
    requires |proofs| < U64_BOUND
    requires var maps := Run(c, sk, proofs).maps; i < |maps| && j < |maps| && l in maps[i]
    ensures var maps := Run(c, sk, proofs).maps;
            && ValEpoch(maps[i][l]).Some?
            && (l in maps[j] <==> ValEpoch(maps[i][l]).value <= j)
            && (l in maps[j] ==> maps[j][l] == maps[i][l])
  {
    RunInv(c, sk, proofs);
    var maps := Run(c, sk, proofs).maps;
    assert BornAt(maps, l, ValEpoch(maps[i][l]).value);
    assert if i <= j then Kept(maps[i], maps[j]) else Kept(maps[j], maps[i]);
  }

  /** Over any run, every stored value is exactly the encoding of the first epoch that has its entry and a
      commitment. */
  lemma ValuesExact(c: Crypto, sk: Bytes, proofs: seq<UpdateProof>, i: nat, l: Slice) returns (e: U64)
    requires |proofs| < U64_BOUND
    requires var maps := Run(c, sk, proofs).maps; i < |maps| && l in maps[i]
    ensures var maps := Run(c, sk, proofs).maps;
            IsMapVal(maps[i][l], e) && e <= i && forall j: nat | j < |maps| :: l in maps[j] <==> e <= j
  {
    hide ValEpoch, IsMapVal;
    RunInv(c, sk, proofs);
    var maps := Run(c, sk, proofs).maps;
    e := ValEpoch(maps[i][l]).value;
    assert BornAt(maps, l, e);
    ValEpochIff(maps[i][l], e);
  }

  /** The digests that the auditor has signed, by epoch. */
  ghost function Digs(st: AdtrState): (digs: seq<Slice>)
    ensures |digs| == |st.infos|
  {
    seq(|st.infos|, e requires 0 <= e < |st.infos| => st.infos[e].dig)
  }

  // ---- the auditor object

  lemma MoveEntry(m: map<Slice, Slice>, rest: map<Slice, Slice>, l: Slice)
    requires l in rest
    ensures m[l := rest[l]] + (rest - {l}) == m + rest
    ensures |rest - {l}| < |rest|
  {
    assert (rest - {l}).Keys == rest.Keys - {l};
  }

  class Auditor {
    const c: Crypto
    const sk: Bytes
    const keyMap: Merkle.Tree
    var histInfo: seq<AdtrEpochInfo>
    ghost var maps: seq<KeyMap>

    ghost predicate Valid()
      reads this, keyMap, keyMap.repr
    {
      && keyMap.Valid() && keyMap.h == c.hash && this !in keyMap.repr
      && keyMap.Contents() == CurrentMap(maps) && Inv(c, sk, State())
    }

    ghost function State(): AdtrState
      reads this
    {
      AdtrState(maps, histInfo)
    }

    constructor (c: Crypto, sk: Bytes)
      ensures Valid() && this.c == c && this.sk == sk && State() == INIT
      ensures fresh(keyMap.repr) && fresh(keyMap)
    {
      this.c, this.sk, histInfo, maps := c, sk, [], [];
      keyMap := new Merkle.Tree(c.hash);
    }

    method CheckOneUpd(nextEp: U64, mapLabel: Slice, mapVal: Slice) returns (err: bool)
      requires Valid()
      ensures err <==> !UpdateOk(CurrentMap(maps), nextEp, mapLabel, mapVal)
      ensures err <==> !EntryOk(CurrentMap(maps), nextEp, mapLabel, mapVal)
    {
      ValEpochIff(mapVal, nextEp);
      if |mapLabel| != HASH_LEN {
        return true;
      }
      var inTree, _ := keyMap.Get(mapLabel);
      if inTree {
        return true;
      }
      var dec := MapValPreDecode(mapVal);
      if dec.Bad? {
        return true;
      }
      if |dec.rest| != 0 {
        return true;
      }
      if dec.val.epoch != nextEp {
        return true;
      }
      return false;
    }

    method CheckUpd(nextEp: U64, upd: map<Slice, Slice>) returns (err: bool)
      requires Valid()
      ensures err <==> !UpdatesOk(CurrentMap(maps), nextEp, upd)
    {
      err := false;
      var todo := upd.Keys;
      while todo != {}
        invariant todo <= upd.Keys
        invariant err <==> exists l | l in upd.Keys - todo :: !UpdateOk(CurrentMap(maps), nextEp, l, upd[l])
        decreases |todo|
      {
        var l :| l in todo;
        var bad := CheckOneUpd(nextEp, l, upd[l]);
        if bad {
          err := true;
        }
        todo := todo - {l};
      }
    }

    /** Puts the entries in an arbitrary order; the assertion on Put's error never fires. */
    method ApplyUpd(upd: map<Slice, Slice>)
      requires keyMap.Valid()
      requires forall l | l in upd :: IsLabel(l)
      modifies keyMap.repr
      ensures keyMap.Valid() && fresh(keyMap.repr - old(keyMap.repr))
      ensures keyMap.Contents() == old(keyMap.Contents()) + upd
    {
      var rest := upd;
      ghost var m := keyMap.Contents() + upd;
      while rest != map[]
        invariant forall l | l in rest :: IsLabel(l)
        invariant keyMap.Valid() && fresh(keyMap.repr - old(keyMap.repr))
        invariant keyMap.Contents() + rest == m
        decreases |rest|
      {
        var l :| l in rest;
        MoveEntry(keyMap.Contents(), rest, l);
        var err0 := keyMap.Put(l, rest[l]);
        assert !err0;
        rest := rest - {l};
      }
    }

    /** Signs and records the current map as the next epoch. */
    method RecordEpoch(servSig: Bytes)
      requires keyMap.Valid() && keyMap.h == c.hash && |maps| == |histInfo| < U64_BOUND
      modifies this`histInfo, this`maps
      ensures State() == AfterAccepted(c, sk, old(State()), keyMap.Contents(), servSig)
    {
      var nextEp := |histInfo|;
      var dig := keyMap.Digest();
      var sig := SignDig(c, sk, nextEp, dig);
      var newInfo := AdtrEpochInfo(dig, servSig, sig);
      histInfo := histInfo + [newInfo];
      maps := maps + [keyMap.Contents()];
    }

    method Update(proof: UpdateProof) returns (err: bool)
      requires Valid() && |maps| < U64_BOUND
      modifies this`histInfo, this`maps, keyMap.repr
      ensures Valid() && fresh(keyMap.repr - old(keyMap.repr))
      ensures (State(), err) == AfterUpdate(c, sk, old(State()), proof)
      ensures !err <==> forall l | l in proof.updates ::
                          EntryOk(CurrentMap(old(maps)), |old(maps)|, l, proof.updates[l])
    {
      hide Inv, ValEpoch, UpdatesOk, Merkle.Tree.Valid, Merkle.Tree.Contents;
      UpdateKeepsInv(c, sk, State(), proof);
      UpdateAcceptedIff(c, sk, State(), proof);
      InvLengths(c, sk, State());
      var nextEp := |histInfo|;
      var bad := CheckUpd(nextEp, proof.updates);
      if bad {
        return true;
      }
      UnionKeeps(CurrentMap(maps), nextEp, proof.updates);
      ApplyUpd(proof.updates);
      RecordEpoch(proof.sig);
      return false;
    }

    /** The information of an epoch, or the error flag. */
    method Get(epoch: U64) returns (info: AdtrEpochInfo, err: bool)
      requires Valid()
      ensures err <==> epoch >= |maps|
      ensures !err ==> info.dig == MapDigest(c.hash, maps[epoch]) && info == histInfo[epoch]
    {
      if epoch >= |histInfo| {
        return AdtrEpochInfo([], [], []), true;
      }
      return histInfo[epoch], false;
    }
  }
}
