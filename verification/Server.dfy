/** kt/server.go: an honest server that batches puts into signed epochs. */
module KtServer {
  import opened Bytes
  import opened MerkleTrie
  import opened MerkleProofs
  import opened KtTypes
  import opened History
  import Auditor = KtAuditor

  datatype ServKeys = ServKeys(sigSk: Bytes, sigPk: Bytes, vrfSk: Bytes, vrfPk: Bytes, commitSecret: Bytes)

  /** userState: the number of registered versions and the latest key. */
  datatype User = User(numVers: U64, plainPk: Slice)

  /** servEpochInfo. */
  datatype EpochInfo = EpochInfo(updates: map<Slice, Slice>, dig: Slice, sig: Bytes)

  type Users = map<U64, User>

  /** What was put for a uid, by version. */
  type Log = map<U64, seq<PutRec>>

  /** The server's fields, and its history: maps[e] is the key map of epoch e (the last one is
      keyMap), log the puts behind it. */
  datatype ServState = ServState(users: Users, hist: seq<EpochInfo>, maps: seq<KeyMap>, log: Log)

  /** uint64 arithmetic. */
  function ToU64(n: nat): (r: U64)
    ensures n < U64_BOUND ==> r == n
  {
    n % U64_BOUND
  }

  /** A uid that is not registered has no versions and no key. */
  function UserOf(users: Users, uid: U64): User {
    if uid in users then users[uid] else User(0, [])
  }

  function Versions(log: Log, uid: U64): seq<PutRec> {
    if uid in log then log[uid] else []
  }

  // ---- labels and commitments

  function LabelProof(c: Crypto, k: ServKeys, uid: U64, ver: U64): Bytes {
    c.vrfProve(k.vrfSk, MapLabelPreEncode([], MapLabelPre(uid, ver)))
  }

  function Label(c: Crypto, k: ServKeys, uid: U64, ver: U64): Digest {
    MapLabel(c, k.vrfPk, uid, ver)
  }

  function CommitRand(c: Crypto, k: ServKeys, lbl: Bytes): Digest {
    c.hash(k.commitSecret + lbl)
  }

  function OpenFor(c: Crypto, k: ServKeys, uid: U64, ver: U64, pk: Slice): CommitOpen {
    CommitOpen(pk, CommitRand(c, k, Label(c, k, uid, ver)))
  }

  /** Distinct versions have distinct labels. */
  ghost predicate LabelsInjective(c: Crypto, k: ServKeys) {
    forall uid: U64, ver: U64, uid': U64, ver': U64 | Label(c, k, uid, ver) == Label(c, k, uid', ver') ::
      uid == uid' && ver == ver'
  }

  // ---- a batch of puts

  datatype Req = Req(uid: U64, pk: Slice)

  predicate HasUid(reqs: seq<Req>, uid: U64) {
    exists r | r in reqs :: r.uid == uid
  }

  /** The first request of each uid; the others are rejected. */
  function Accepted(reqs: seq<Req>): seq<Req> {
    if reqs == [] then []
    else
      var init, last := reqs[..|reqs| - 1], reqs[|reqs| - 1];
      Accepted(init) + if HasUid(init, last.uid) then [] else [last]
  }

  /** What a batch is building. */
  datatype Batch = Batch(keyMap: KeyMap, upd: map<Slice, Slice>, users: Users, log: Log)

  function Apply(c: Crypto, k: ServKeys, epoch: U64, b: Batch, req: Req): Batch {
    var ver := UserOf(b.users, req.uid).numVers;
    var lbl, open := Label(c, k, req.uid, ver), OpenFor(c, k, req.uid, ver, req.pk);
    var val := CompMapVal(c, epoch, open);
    Batch(b.keyMap[lbl := val], b.upd[lbl := val],
          b.users[req.uid := User(ToU64(ver + 1), req.pk)],
          b.log[req.uid := Versions(b.log, req.uid) + [PutRec(epoch, open)]])
  }

  function ApplyAll(c: Crypto, k: ServKeys, epoch: U64, b: Batch, reqs: seq<Req>): Batch {
    if reqs == [] then b
    else Apply(c, k, epoch, ApplyAll(c, k, epoch, b, reqs[..|reqs| - 1]), reqs[|reqs| - 1])
  }

  ghost function KeyMapOf(st: ServState): KeyMap {
    Auditor.CurrentMap(st.maps)
  }

  /** updEpochHist: the signed next epoch. */
  ghost function SignEpoch(c: Crypto, k: ServKeys, hist: seq<EpochInfo>, keyMap: KeyMap, upd: map<Slice, Slice>)
    : (hist': seq<EpochInfo>)
    ensures |hist'| == |hist| + 1
  {
    var dig := MapDigest(c.hash, keyMap);
    hist + [EpochInfo(upd, dig, Auditor.SignDig(c, k.sigSk, ToU64(|hist|), dig))]
  }

  ghost function StartBatch(st: ServState): Batch {
    Batch(KeyMapOf(st), map[], st.users, st.log)
  }

  /** The locked part of Worker. */
  ghost function AfterBatch(c: Crypto, k: ServKeys, st: ServState, reqs: seq<Req>): ServState {
    var b := ApplyAll(c, k, ToU64(|st.hist|), StartBatch(st), Accepted(reqs));
    ServState(b.users, SignEpoch(c, k, st.hist, b.keyMap, b.upd), st.maps + [b.keyMap], b.log)
  }

  /** NewServer: the empty tree is epoch 0. */
  ghost function ServInit(c: Crypto, k: ServKeys): (st: ServState)
    ensures |st.hist| == 1
  {
    ServState(map[], SignEpoch(c, k, [], map[], map[]), [map[]], map[])
  }

  // ---- the server invariant

  /** The map has the labels of the registered versions and no other label of this uid, and
      stores their epochs and commitments. */
  ghost predicate UidInMap(c: Crypto, k: ServKeys, m: KeyMap, puts: seq<PutRec>, uid: U64) {
    forall ver: U64 :: Lookup(m, Label(c, k, uid, ver))
                       == if ver < |puts| then Some(CompMapVal(c, puts[ver].epoch, puts[ver].open)) else None
  }

  /** The user record counts the puts and has the key of the last one; versions are at increasing
      epochs below n; openings are derivable from the labels. */
  ghost predicate UserOk(c: Crypto, k: ServKeys, user: User, puts: seq<PutRec>, uid: U64, n: nat) {
    && |puts| == user.numVers <= n
    && (puts != [] ==> user.plainPk == puts[|puts| - 1].open.val && puts[|puts| - 1].epoch < n)
    && Increasing(puts)
    && forall ver: nat | ver < |puts| :: puts[ver].open == OpenFor(c, k, uid, ver, puts[ver].open.val)
  }

  ghost predicate Registered(c: Crypto, k: ServKeys, m: KeyMap, users: Users, log: Log, n: nat) {
    forall uid: U64 ::
      UidInMap(c, k, m, Versions(log, uid), uid) && UserOk(c, k, UserOf(users, uid), Versions(log, uid), uid, n)
  }

  /** Each epoch's map is the previous one and its updates, which are disjoint from it and carry
      this epoch: just what an auditor checks. */
  ghost predicate EpochOk(c: Crypto, k: ServKeys, st: ServState, e: U64)
    requires e < |st.hist| == |st.maps|
  {
    && Auditor.UpdatesOk(Auditor.CurrentMap(st.maps[..e]), e, st.hist[e].updates)
    && st.maps[e] == Auditor.CurrentMap(st.maps[..e]) + st.hist[e].updates
    && st.hist[e].dig == MapDigest(c.hash, st.maps[e])
    && st.hist[e].sig == Auditor.SignDig(c, k.sigSk, e, st.hist[e].dig)
  }

  ghost predicate ServInv(c: Crypto, k: ServKeys, st: ServState) {
    && 0 < |st.hist| == |st.maps| < U64_BOUND
    && (forall e: nat | e < |st.hist| :: EpochOk(c, k, st, e))
    && Registered(c, k, KeyMapOf(st), st.users, st.log, |st.hist|)
  }

  lemma InitInv(c: Crypto, k: ServKeys)
    ensures ServInv(c, k, ServInit(c, k))
  {
    hide CompMapVal, MapLabel, MapDigest;
    var st := ServInit(c, k);
    assert EpochOk(c, k, st, 0);
  }

  /** In the middle of a batch: as the invariant, and uids not in the batch are as before. */
  ghost predicate BatchInv(c: Crypto, k: ServKeys, st: ServState, b: Batch, reqs: seq<Req>)
    requires |st.hist| < U64_BOUND
  {
    && Registered(c, k, b.keyMap, b.users, b.log, |st.hist| + 1)
    && b.keyMap == KeyMapOf(st) + b.upd
    && Auditor.UpdatesOk(KeyMapOf(st), |st.hist|, b.upd)
    && forall uid: U64 | !HasUid(reqs, uid) ::
         Versions(b.log, uid) == Versions(st.log, uid) && UserOf(b.users, uid) == UserOf(st.users, uid)
  }

  ghost predicate Distinct(reqs: seq<Req>) {
    forall i: nat, j: nat | i < j < |reqs| :: reqs[i].uid != reqs[j].uid
  }

  lemma ApplyKeepsMap(c: Crypto, k: ServKeys, m: KeyMap, puts: seq<PutRec>, uid: U64, uid': U64, puts': seq<PutRec>,
                      put: PutRec)
    requires LabelsInjective(c, k) && |puts| < U64_BOUND
    requires UidInMap(c, k, m, puts, uid) && UidInMap(c, k, m, puts', uid') && (uid == uid' ==> puts == puts')
    ensures UidInMap(c, k, m[Label(c, k, uid, |puts|) := CompMapVal(c, put.epoch, put.open)],
                     if uid == uid' then puts + [put] else puts', uid')
  {
    hide MapLabel, CompMapVal;
  }

  lemma ApplyKeepsUser(c: Crypto, k: ServKeys, user: User, puts: seq<PutRec>, req: Req, epoch: U64)
    requires UserOk(c, k, user, puts, req.uid, epoch) && epoch + 1 < U64_BOUND
    ensures var put := PutRec(epoch, OpenFor(c, k, req.uid, |puts|, req.pk));
            UserOk(c, k, User(ToU64(|puts| + 1), req.pk), puts + [put], req.uid, epoch + 1)
  {
    hide MapLabel, CommitRand;
  }

  /** A label that is not in the map so far is a new one of this epoch. */
  lemma ApplyKeepsUpd(m: KeyMap, epoch: U64, upd: map<Slice, Slice>, lbl: Digest, val: Slice)
    requires Auditor.UpdatesOk(m, epoch, upd) && lbl !in m + upd && ValEpoch(val) == Some(epoch)
    ensures Auditor.UpdatesOk(m, epoch, upd[lbl := val])
    ensures m + upd[lbl := val] == (m + upd)[lbl := val]
  {
    hide ValEpoch;
  }

  lemma VersionsBound(c: Crypto, k: ServKeys, user: User, puts: seq<PutRec>, uid: U64, n: nat)
    requires UserOk(c, k, user, puts, uid, n)
    ensures |puts| == user.numVers <= n
  {
  }

  lemma NextLabelAbsent(c: Crypto, k: ServKeys, m: KeyMap, puts: seq<PutRec>, uid: U64)
    requires UidInMap(c, k, m, puts, uid) && |puts| < U64_BOUND
    ensures Label(c, k, uid, |puts|) !in m
  {
  }

  lemma ApplyKeepsRegistered(c: Crypto, k: ServKeys, st: ServState, b: Batch, reqs: seq<Req>, req: Req)
    requires LabelsInjective(c, k) && ServInv(c, k, st) && |st.hist| + 1 < U64_BOUND
    requires BatchInv(c, k, st, b, reqs) && !HasUid(reqs, req.uid)
    ensures var b' := Apply(c, k, |st.hist|, b, req);
            Registered(c, k, b'.keyMap, b'.users, b'.log, |st.hist| + 1)
  {
    hide UserOk, UidInMap, CompMapVal, OpenFor, Label, EpochOk, Auditor.UpdatesOk, HasUid;
    var epoch, b' := |st.hist|, Apply(c, k, |st.hist|, b, req);
    var puts := Versions(b.log, req.uid);
    VersionsBound(c, k, UserOf(st.users, req.uid), puts, req.uid, epoch);
    var put := PutRec(epoch, OpenFor(c, k, req.uid, |puts|, req.pk));
    forall uid: U64
      ensures UidInMap(c, k, b'.keyMap, Versions(b'.log, uid), uid)
      ensures UserOk(c, k, UserOf(b'.users, uid), Versions(b'.log, uid), uid, epoch + 1)
    {
      ApplyKeepsMap(c, k, b.keyMap, puts, req.uid, uid, Versions(b.log, uid), put);
      if uid == req.uid {
        ApplyKeepsUser(c, k, UserOf(st.users, uid), puts, req, epoch);
      }
    }
  }

  lemma ApplyKeepsBatch(c: Crypto, k: ServKeys, st: ServState, b: Batch, reqs: seq<Req>, req: Req)
    requires LabelsInjective(c, k) && ServInv(c, k, st) && |st.hist| + 1 < U64_BOUND
    requires BatchInv(c, k, st, b, reqs) && !HasUid(reqs, req.uid)
    ensures BatchInv(c, k, st, Apply(c, k, |st.hist|, b, req), reqs + [req])
  {
    hide UserOk, UidInMap, CompMapVal, OpenFor, Label, EpochOk, Auditor.UpdatesOk;
    var epoch, puts := |st.hist|, Versions(b.log, req.uid);
    ApplyKeepsRegistered(c, k, st, b, reqs, req);
    VersionsBound(c, k, UserOf(st.users, req.uid), puts, req.uid, epoch);
    var put := PutRec(epoch, OpenFor(c, k, req.uid, |puts|, req.pk));
    var lbl, val := Label(c, k, req.uid, |puts|), CompMapVal(c, epoch, put.open);
    NextLabelAbsent(c, k, b.keyMap, puts, req.uid);
    CompMapValEpoch(c, epoch, put.open);
    ApplyKeepsUpd(KeyMapOf(st), epoch, b.upd, lbl, val);
    HasUidAppend(reqs, req);
  }

  lemma HasUidAppend(reqs: seq<Req>, req: Req)
    ensures forall uid :: HasUid(reqs + [req], uid) <==> HasUid(reqs, uid) || uid == req.uid
  {
    forall uid
      ensures HasUid(reqs + [req], uid) <==> HasUid(reqs, uid) || uid == req.uid
    {
      assert req in reqs + [req];
      if HasUid(reqs, uid) {
        var r :| r in reqs && r.uid == uid;
        assert r in reqs + [req];
      }
    }
  }

  /** The accepted requests have distinct uids, those of the batch. */
  lemma {:induction false} AcceptedUids(reqs: seq<Req>)
    ensures forall uid :: HasUid(Accepted(reqs), uid) <==> HasUid(reqs, uid)
  {
    if reqs != [] {
      var init, last := reqs[..|reqs| - 1], reqs[|reqs| - 1];
      AcceptedUids(init);
      assert reqs == init + [last];
      HasUidAppend(init, last);
      HasUidAppend(Accepted(init), last);
      assert Accepted(init) + [] == Accepted(init);
    }
  }

  lemma UserOkLater(c: Crypto, k: ServKeys, m: KeyMap, users: Users, log: Log, n: nat)
    requires Registered(c, k, m, users, log, n)
    ensures Registered(c, k, m, users, log, n + 1)
  {
    hide UidInMap, OpenFor;
  }

  lemma StartInv(c: Crypto, k: ServKeys, st: ServState)
    requires ServInv(c, k, st)
    ensures BatchInv(c, k, st, StartBatch(st), [])
  {
    hide UidInMap, UserOk;
    UserOkLater(c, k, KeyMapOf(st), st.users, st.log, |st.hist|);
    assert KeyMapOf(st) + map[] == KeyMapOf(st);
  }

  lemma {:induction false} BatchKeepsInv(c: Crypto, k: ServKeys, st: ServState, reqs: seq<Req>)
    requires LabelsInjective(c, k) && ServInv(c, k, st) && |st.hist| + 1 < U64_BOUND
    ensures BatchInv(c, k, st, ApplyAll(c, k, |st.hist|, StartBatch(st), Accepted(reqs)), Accepted(reqs))
  {
    hide BatchInv, Apply, ServInv;
    if reqs == [] {
      StartInv(c, k, st);
    } else {
      var init, last := reqs[..|reqs| - 1], reqs[|reqs| - 1];
      BatchKeepsInv(c, k, st, init);
      AcceptedUids(init);
      if HasUid(init, last.uid) {
        assert Accepted(init) + [] == Accepted(init);
      } else {
        assert (Accepted(init) + [last])[..|Accepted(init)|] == Accepted(init);
        ApplyKeepsBatch(c, k, st, ApplyAll(c, k, |st.hist|, StartBatch(st), Accepted(init)), Accepted(init), last);
      }
    }
  }

  lemma EpochOkLater(c: Crypto, k: ServKeys, st: ServState, st': ServState, e: U64)
    requires e < |st.hist| == |st.maps| < |st'.hist| == |st'.maps| && EpochOk(c, k, st, e)
    requires st'.hist[e] == st.hist[e] && st'.maps[..|st.maps|] == st.maps
    ensures EpochOk(c, k, st', e)
  {
    hide Auditor.UpdatesOk, Auditor.SignDig, MapDigest;
    assert st'.maps[..e] == st.maps[..e] && st'.maps[e] == st.maps[e];
  }

  lemma NewEpochOk(c: Crypto, k: ServKeys, st: ServState, st': ServState, b: Batch)
    requires 0 < |st.hist| == |st.maps| && |st.hist| + 1 < U64_BOUND
    requires Auditor.UpdatesOk(KeyMapOf(st), |st.hist|, b.upd) && b.keyMap == KeyMapOf(st) + b.upd
    requires st'.maps == st.maps + [b.keyMap] && st'.hist == SignEpoch(c, k, st.hist, b.keyMap, b.upd)
    ensures EpochOk(c, k, st', |st.hist|)
  {
    hide Auditor.UpdatesOk, Auditor.SignDig, MapDigest;
    assert st'.maps[..|st.maps|] == st.maps;
  }

  /** A batch keeps the server invariant, whatever the requests are. */
  lemma CommitKeepsInv(c: Crypto, k: ServKeys, st: ServState, reqs: seq<Req>)
    requires LabelsInjective(c, k) && ServInv(c, k, st) && |st.hist| + 1 < U64_BOUND
    ensures ServInv(c, k, AfterBatch(c, k, st, reqs))
  {
    hide Registered, Auditor.UpdatesOk, Auditor.SignDig, MapDigest, EpochOk, ToU64, ApplyAll, Accepted, HasUid;
    BatchKeepsInv(c, k, st, reqs);
    var st' := AfterBatch(c, k, st, reqs);
    var b := ApplyAll(c, k, |st.hist|, StartBatch(st), Accepted(reqs));
    NewEpochOk(c, k, st, st', b);
    forall e: nat | e < |st.hist|
      ensures EpochOk(c, k, st', e)
    {
      assert EpochOk(c, k, st, e);
      EpochOkLater(c, k, st, st', e);
    }
  }

  // ---- what a batch does for one uid

  /** The first request of a uid, which is the accepted one. */
  function FirstReq(reqs: seq<Req>, uid: U64): (r: Req)
    requires HasUid(reqs, uid)
    ensures r in reqs && r.uid == uid
  {
    var init, last := reqs[..|reqs| - 1], reqs[|reqs| - 1];
    assert reqs == init + [last];
    if HasUid(init, uid) then FirstReq(init, uid) else last
  }

  lemma {:induction false} FirstReqIs(reqs: seq<Req>, i: nat)
    requires i < |reqs| && !HasUid(reqs[..i], reqs[i].uid)
    ensures HasUid(reqs, reqs[i].uid) && FirstReq(reqs, reqs[i].uid) == reqs[i]
  {
    assert reqs[i] in reqs;
    var init := reqs[..|reqs| - 1];
    if i < |reqs| - 1 {
      assert init[..i] == reqs[..i];
      FirstReqIs(init, i);
    }
  }

  /** The version that a batch adds for a uid. */
  function NewVersion(c: Crypto, k: ServKeys, epoch: U64, users: Users, reqs: seq<Req>, uid: U64): seq<PutRec> {
    if HasUid(reqs, uid)
    then [PutRec(epoch, OpenFor(c, k, uid, UserOf(users, uid).numVers, FirstReq(reqs, uid).pk))]
    else []
  }

  lemma ApplyVersions(c: Crypto, k: ServKeys, epoch: U64, b: Batch, req: Req, uid: U64)
    ensures var b' := Apply(c, k, epoch, b, req);
            if uid == req.uid
            then Versions(b'.log, uid)
                 == Versions(b.log, uid) + [PutRec(epoch, OpenFor(c, k, uid, UserOf(b.users, uid).numVers, req.pk))]
            else Versions(b'.log, uid) == Versions(b.log, uid) && UserOf(b'.users, uid) == UserOf(b.users, uid)
  {
    hide MapLabel, OpenFor, CompMapVal;
  }

  lemma {:induction false} BatchVersions(c: Crypto, k: ServKeys, epoch: U64, b: Batch, reqs: seq<Req>, uid: U64)
    ensures var b' := ApplyAll(c, k, epoch, b, Accepted(reqs));
            && Versions(b'.log, uid) == Versions(b.log, uid) + NewVersion(c, k, epoch, b.users, reqs, uid)
            && (!HasUid(reqs, uid) ==> UserOf(b'.users, uid) == UserOf(b.users, uid))
  {
    hide Apply, OpenFor, Versions, HasUid;
    assert Versions(b.log, uid) + [] == Versions(b.log, uid);
    if reqs == [] {
      NoUid(uid);
    } else {
      var init, last := reqs[..|reqs| - 1], reqs[|reqs| - 1];
      BatchVersions(c, k, epoch, b, init, uid);
      assert reqs == init + [last];
      HasUidAppend(init, last);
      if HasUid(init, last.uid) {
        assert Accepted(init) + [] == Accepted(init);
      } else {
        assert (Accepted(init) + [last])[..|Accepted(init)|] == Accepted(init);
        ApplyVersions(c, k, epoch, ApplyAll(c, k, epoch, b, Accepted(init)), last, uid);
      }
    }
  }

  lemma NoUid(uid: U64)
    ensures !HasUid([], uid)
  {
  }
}
