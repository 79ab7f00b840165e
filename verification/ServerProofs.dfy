/** What the honest server answers (kt/server.go), and that clients and auditors accept it. */
module KtServerProofs {
  import opened Bytes
  import opened MerkleTrie
  import opened MerkleProofs
  import opened KtTypes
  import opened Evidence
  import opened KtClient
  import opened History
  import opened KtServer
  import Auditor = KtAuditor

  function CliKeysOf(k: ServKeys): CliKeys {
    CliKeys(k.sigPk, k.vrfPk)
  }

  /** The server's key pairs work, and the VRF gives distinct versions distinct labels. */
  ghost predicate KeysOk(c: Crypto, k: ServKeys) {
    SigKeyPair(c, k.sigSk, k.sigPk) && VrfKeyPair(c, k.vrfSk, k.vrfPk) && LabelsInjective(c, k)
  }

  // ---- answers

  function DigOfEpoch(hist: seq<EpochInfo>, e: U64): SigDig
    requires e < |hist|
  {
    SigDig(e, hist[e].dig, hist[e].sig)
  }

  /** getDig: the latest epoch. */
  function GetDig(hist: seq<EpochInfo>): SigDig
    requires 0 < |hist| < U64_BOUND
  {
    DigOfEpoch(hist, |hist| - 1)
  }

  ghost function MembHideFor(c: Crypto, k: ServKeys, m: KeyMap, uid: U64, ver: U64): MembHide {
    var r := ProveFor(c.hash, m, Label(c, k, uid, ver));
    MembHide(LabelProof(c, k, uid, ver), r.val, r.proof)
  }

  /** getHist: the versions before the latest one. */
  ghost function HistFor(c: Crypto, k: ServKeys, m: KeyMap, uid: U64, numVers: U64): Hist {
    if numVers == 0 then [] else seq(numVers - 1, ver requires 0 <= ver < numVers - 1 => MembHideFor(c, k, m, uid, ver))
  }

  const NO_MEMB: Memb := Memb([], 0, CommitOpen([], []), [])

  /** getLatest; its epoch is decoded from the stored value. */
  ghost function LatestFor(c: Crypto, k: ServKeys, m: KeyMap, uid: U64, numVers: U64, pk: Slice): Memb {
    if numVers == 0 then NO_MEMB
    else
      var r := ProveFor(c.hash, m, Label(c, k, uid, numVers - 1));
      var epoch := match MapValPreDecode(r.val) case Ok(v, _) => v.epoch case Bad => 0;
      Memb(LabelProof(c, k, uid, numVers - 1), epoch, OpenFor(c, k, uid, numVers - 1, pk), r.proof)
  }

  /** getBound. */
  ghost function BoundFor(c: Crypto, k: ServKeys, m: KeyMap, uid: U64, ver: U64): NonMemb {
    NonMemb(LabelProof(c, k, uid, ver), ProveFor(c.hash, m, Label(c, k, uid, ver)).proof)
  }

  ghost function ServGet(c: Crypto, k: ServKeys, st: ServState, uid: U64): GetReply
    requires 0 < |st.hist| < U64_BOUND
  {
    var user, m := UserOf(st.users, uid), KeyMapOf(st);
    GetReply(GetDig(st.hist), HistFor(c, k, m, uid, user.numVers), user.numVers != 0,
             LatestFor(c, k, m, uid, user.numVers, user.plainPk), BoundFor(c, k, m, uid, user.numVers))
  }

  ghost function ServSelfMon(c: Crypto, k: ServKeys, st: ServState, uid: U64): SelfMonReply
    requires 0 < |st.hist| < U64_BOUND
  {
    SelfMonReply(GetDig(st.hist), BoundFor(c, k, KeyMapOf(st), uid, UserOf(st.users, uid).numVers))
  }

  /** What mapper0 computes before the lock, for a request that is not rejected. */
  datatype Mapper0Out = Mapper0Out(
    latestVrfHash: Digest, latestVrfProof: Bytes, boundVrfHash: Digest, boundVrfProof: Bytes,
    mapVal: Slice, pkOpen: CommitOpen)

  /** The fresh output struct of a rejected request. */
  const NO_OUT: Mapper0Out := Mapper0Out(ZERO, [], ZERO, [], [], CommitOpen([], []))

  function Mapper0For(c: Crypto, k: ServKeys, uid: U64, numVers: U64, nextEpoch: U64, pk: Slice): Mapper0Out {
    var bound, open := ToU64(numVers + 1), OpenFor(c, k, uid, numVers, pk);
    Mapper0Out(Label(c, k, uid, numVers), LabelProof(c, k, uid, numVers),
               Label(c, k, uid, bound), LabelProof(c, k, uid, bound), CompMapVal(c, nextEpoch, open), open)
  }

  /** What mapper1 answers after the lock. */
  ghost function Mapper1For(c: Crypto, st: ServState, out: Mapper0Out): PutReply
    requires 0 < |st.hist| < U64_BOUND
  {
    var m := KeyMapOf(st);
    PutReply(GetDig(st.hist),
             Memb(out.latestVrfProof, |st.hist| - 1, out.pkOpen, ProveFor(c.hash, m, out.latestVrfHash).proof),
             NonMemb(out.boundVrfProof, ProveFor(c.hash, m, out.boundVrfHash).proof))
  }

  ghost function Mapper0Of(c: Crypto, k: ServKeys, st: ServState, req: Req): Mapper0Out {
    Mapper0For(c, k, req.uid, UserOf(st.users, req.uid).numVers, ToU64(|st.hist|), req.pk)
  }

  /** WQResp; the digest pointer of a rejected request stays nil. */
  datatype WQResp = WQResp(dig: Option<SigDig>, lat: Memb, bound: NonMemb, err: bool)

  const REJECTED: WQResp := WQResp(None, NO_MEMB, NonMemb([], []), true)

  function Answer(r: PutReply): WQResp {
    WQResp(Some(r.dig), r.latest, r.bound, false)
  }

  /** What a client's CallServPut makes of a response. */
  function ReplyOf(r: WQResp): Option<PutReply> {
    if r.err || r.dig.None? then None else Some(PutReply(r.dig.value, r.lat, r.bound))
  }

  // ---- clients accept them

  /** The client has seen only digests that the server published. */
  ghost predicate ClientAgrees(cli: CliState, hist: seq<EpochInfo>) {
    && cli.nextEpoch <= |hist|
    && forall e | e in cli.seenDigs :: e < |hist| && cli.seenDigs[e].dig == hist[e].dig
  }

  lemma DigAccepted(c: Crypto, k: ServKeys, st: ServState, cli: CliState, e: U64)
    requires KeysOk(c, k) && ServInv(c, k, st) && ClientAgrees(cli, st.hist) && e < |st.hist|
    ensures CheckDig(c, k.sigPk, cli.seenDigs, DigOfEpoch(st.hist, e)).NoErr?
  {
    hide Registered, MapDigest, PreSigDigEncode;
    assert EpochOk(c, k, st, e);
  }

  lemma LatestDig(c: Crypto, k: ServKeys, st: ServState)
    requires ServInv(c, k, st)
    ensures GetDig(st.hist).dig == MapDigest(c.hash, KeyMapOf(st)) && GetDig(st.hist).epoch == |st.hist| - 1
  {
    hide Registered, MapDigest;
    assert EpochOk(c, k, st, |st.hist| - 1);
  }

  lemma LabelAccepted(c: Crypto, k: ServKeys, m: KeyMap, uid: U64, ver: U64)
    requires KeysOk(c, k)
    ensures CheckLabel(c, k.vrfPk, uid, ver, LabelProof(c, k, uid, ver)) == Some(Label(c, k, uid, ver))
    ensures var r := ProveFor(c.hash, m, Label(c, k, uid, ver));
            Accepts(c.hash, r.inTree, Label(c, k, uid, ver), r.val, r.proof, MapDigest(c.hash, m))
  {
    hide Accepts, ProveFor, MapDigest, MapLabelPreEncode, LabelsInjective;
    ProveComplete(c.hash, m, Label(c, k, uid, ver));
  }

  lemma BoundAccepted(c: Crypto, k: ServKeys, m: KeyMap, uid: U64, ver: U64)
    requires KeysOk(c, k) && Label(c, k, uid, ver) !in m
    ensures NonMembOk(c, k.vrfPk, uid, ver, MapDigest(c.hash, m), BoundFor(c, k, m, uid, ver))
  {
    hide Accepts, MapDigest, MapLabelPreEncode, KeysOk, ProofBytes;
    LabelAccepted(c, k, m, uid, ver);
  }

  lemma MembHideAccepted(c: Crypto, k: ServKeys, m: KeyMap, uid: U64, ver: U64)
    requires KeysOk(c, k) && Label(c, k, uid, ver) in m
    ensures MembHideOk(c, k.vrfPk, uid, ver, MapDigest(c.hash, m), MembHideFor(c, k, m, uid, ver))
  {
    hide Accepts, MapDigest, MapLabelPreEncode, KeysOk, ProofBytes;
    LabelAccepted(c, k, m, uid, ver);
  }

  /** The commitment that the client recomputes from the opening is the stored one. */
  lemma MembAccepted(c: Crypto, k: ServKeys, m: KeyMap, uid: U64, ver: U64, epoch: U64, open: CommitOpen)
    requires KeysOk(c, k) && Lookup(m, Label(c, k, uid, ver)) == Some(CompMapVal(c, epoch, open))
    ensures MembOk(c, k.vrfPk, uid, ver, MapDigest(c.hash, m),
                   Memb(LabelProof(c, k, uid, ver), epoch, open, ProveFor(c.hash, m, Label(c, k, uid, ver)).proof))
  {
    hide Accepts, MapDigest, MapLabelPreEncode, KeysOk, ProofBytes, CompMapVal;
    LabelAccepted(c, k, m, uid, ver);
  }

  lemma UserFacts(c: Crypto, k: ServKeys, st: ServState, uid: U64)
    requires ServInv(c, k, st)
    ensures UidInMap(c, k, KeyMapOf(st), Versions(st.log, uid), uid)
    ensures UserOk(c, k, UserOf(st.users, uid), Versions(st.log, uid), uid, |st.hist|)
  {
    hide UidInMap, UserOk;
  }

  lemma VersionInMap(c: Crypto, k: ServKeys, m: KeyMap, puts: seq<PutRec>, uid: U64, ver: U64)
    requires UidInMap(c, k, m, puts, uid)
    ensures Lookup(m, Label(c, k, uid, ver))
            == if ver < |puts| then Some(CompMapVal(c, puts[ver].epoch, puts[ver].open)) else None
  {
    hide CompMapVal, MapLabel;
  }

  lemma LatestAccepted(c: Crypto, k: ServKeys, st: ServState, uid: U64)
    requires KeysOk(c, k) && ServInv(c, k, st) && UserOf(st.users, uid).numVers != 0
    ensures var user := UserOf(st.users, uid);
            var latest := LatestFor(c, k, KeyMapOf(st), uid, user.numVers, user.plainPk);
            MembOk(c, k.vrfPk, uid, user.numVers - 1, MapDigest(c.hash, KeyMapOf(st)), latest)
  {
    hide CompMapVal, MapLabel, MapDigest, Accepts, KeysOk, ProofBytes, MapValPreDecode, MembOk;
    var user, m, puts := UserOf(st.users, uid), KeyMapOf(st), Versions(st.log, uid);
    UserFacts(c, k, st, uid);
    var ver := user.numVers - 1;
    VersionInMap(c, k, m, puts, uid, ver);
    DecodedEpoch(c, puts[ver].epoch, puts[ver].open);
    MembAccepted(c, k, m, uid, ver, puts[ver].epoch, puts[ver].open);
  }

  lemma DecodedEpoch(c: Crypto, epoch: U64, open: CommitOpen)
    ensures MapValPreDecode(CompMapVal(c, epoch, open)).Ok?
    ensures MapValPreDecode(CompMapVal(c, epoch, open)).val.epoch == epoch
  {
    MapValPreExact(CompMapVal(c, epoch, open), MapValPre(epoch, Commit(c, open)));
  }

  /** In every reachable server state, for every uid, a client that agrees with the server accepts
      the answer to Get: unregistered, one version or many. */
  lemma GetAccepted(c: Crypto, k: ServKeys, st: ServState, cli: CliState, uid: U64)
    requires KeysOk(c, k) && ServInv(c, k, st) && ClientAgrees(cli, st.hist)
    ensures GetReplyOk(c, CliKeysOf(k), cli, uid, ServGet(c, k, st, uid))
    ensures AfterGet(c, CliKeysOf(k), cli, uid, Some(ServGet(c, k, st, uid))).1.NoErr?
  {
    hide CompMapVal, MapLabel, MapDigest, MembHideOk, MembOk, NonMembOk, MembHideFor, LatestFor, BoundFor, KeysOk;
    hide CheckDig;
    var user, m, puts, r := UserOf(st.users, uid), KeyMapOf(st), Versions(st.log, uid), ServGet(c, k, st, uid);
    UserFacts(c, k, st, uid);
    LatestDig(c, k, st);
    DigAccepted(c, k, st, cli, |st.hist| - 1);
    forall ver: nat | ver < |r.hist|
      ensures MembHideOk(c, k.vrfPk, uid, ver, r.dig.dig, r.hist[ver])
    {
      VersionInMap(c, k, m, puts, uid, ver);
      MembHideAccepted(c, k, m, uid, ver);
    }
    if user.numVers != 0 {
      LatestAccepted(c, k, st, uid);
    }
    VersionInMap(c, k, m, puts, uid, user.numVers);
    BoundAccepted(c, k, m, uid, user.numVers);
  }

  /** The answer is the key that was put last. */
  lemma GetAnswer(c: Crypto, k: ServKeys, st: ServState, uid: U64)
    requires ServInv(c, k, st)
    ensures var r := ServGet(c, k, st, uid);
            EntryAt(Versions(st.log, uid), r.dig.epoch)
            == if r.isReg then HistEntry(true, r.latest.pkOpen.val) else NO_ENTRY
  {
    hide CompMapVal, MapLabel, MapDigest, MapValPreDecode, ProveFor;
    UserFacts(c, k, st, uid);
    var puts := Versions(st.log, uid);
    if puts != [] {
      EntryIsVersion(puts, |st.hist| - 1, |puts| - 1);
    }
  }

  lemma SelfMonAccepted(c: Crypto, k: ServKeys, st: ServState, cli: CliState)
    requires KeysOk(c, k) && ServInv(c, k, st) && ClientAgrees(cli, st.hist)
    requires cli.nextVer == |Versions(st.log, cli.uid)|
    ensures SelfMonReplyOk(c, CliKeysOf(k), cli, ServSelfMon(c, k, st, cli.uid))
  {
    hide CompMapVal, MapLabel, MapDigest, NonMembOk, BoundFor, KeysOk;
    UserFacts(c, k, st, cli.uid);
    LatestDig(c, k, st);
    VersionInMap(c, k, KeyMapOf(st), Versions(st.log, cli.uid), cli.uid, cli.nextVer);
    BoundAccepted(c, k, KeyMapOf(st), cli.uid, cli.nextVer);
  }

  /** Right after a commit, mapper1 proves the version that mapper0 prepared before it, and the
      client whose put it was accepts. */
  lemma PutAccepted(c: Crypto, k: ServKeys, st: ServState, cli: CliState, pk: Slice)
    requires KeysOk(c, k) && ServInv(c, k, st) && ClientAgrees(cli, st.hist) && cli.nextEpoch < |st.hist|
    requires |Versions(st.log, cli.uid)| == cli.nextVer + 1 < U64_BOUND
    requires var put := Versions(st.log, cli.uid)[cli.nextVer]; put.epoch == |st.hist| - 1 && put.open.val == pk
    ensures var r := Mapper1For(c, st, Mapper0For(c, k, cli.uid, cli.nextVer, |st.hist| - 1, pk));
            PutReplyOk(c, CliKeysOf(k), cli, pk, r)
  {
    hide CompMapVal, MapLabel, MapDigest, NonMembOk, MembOk, KeysOk, ProveFor, ToU64;
    var m, puts := KeyMapOf(st), Versions(st.log, cli.uid);
    UserFacts(c, k, st, cli.uid);
    LatestDig(c, k, st);
    VersionInMap(c, k, m, puts, cli.uid, cli.nextVer);
    MembAccepted(c, k, m, cli.uid, cli.nextVer, |st.hist| - 1, puts[cli.nextVer].open);
    VersionInMap(c, k, m, puts, cli.uid, cli.nextVer + 1);
    BoundAccepted(c, k, m, cli.uid, cli.nextVer + 1);
  }

  // ---- commitments hide keys behind the secret

  /** What is hashed for the randomness of a version, and for its commitment. */
  ghost predicate HashedOpen(c: Crypto, k: ServKeys, uid: U64, ver: U64, pk: Slice, q: set<Bytes>) {
    k.commitSecret + Label(c, k, uid, ver) in q && CommitOpenEncode([], OpenFor(c, k, uid, ver, pk)) in q
  }

  /** The randomness is the hash of the secret, followed by the label. */
  lemma RandIsHash(c: Crypto, k: ServKeys, uid: U64, ver: U64, pk: Slice, x: Bytes)
    requires |x| == |k.commitSecret| + HASH_LEN
    requires x[..|k.commitSecret|] == k.commitSecret && x[|k.commitSecret|..] == Label(c, k, uid, ver)
    ensures OpenFor(c, k, uid, ver, pk) == CommitOpen(pk, c.hash(x))
  {
    hide Label;
    assert x == k.commitSecret + Label(c, k, uid, ver);
  }

  lemma ConcatDiffers(x: Bytes, y: Bytes, x': Bytes, y': Bytes)
    requires |x| == |x'| && (x != x' || y != y')
    ensures x + y != x' + y'
  {
    assert (x + y)[..|x|] == x && (x' + y')[..|x'|] == x' && (x + y)[|x|..] == y && (x' + y')[|x'|..] == y';
  }

  /** Two versions, of any uids, are opened with different randomness. */
  lemma RandsDiffer(c: Crypto, k: ServKeys, uid: U64, ver: U64, pk: Slice, uid': U64, ver': U64, pk': Slice,
                    q: set<Bytes>)
    requires LabelsInjective(c, k) && (uid != uid' || ver != ver') && CollisionFree(c.hash, q)
    requires HashedOpen(c, k, uid, ver, pk, q) && HashedOpen(c, k, uid', ver', pk', q)
    ensures OpenFor(c, k, uid, ver, pk).rand != OpenFor(c, k, uid', ver', pk').rand
  {
    hide MapLabel, CommitOpenEncode;
    ConcatDiffers(k.commitSecret, Label(c, k, uid, ver), k.commitSecret, Label(c, k, uid', ver'));
  }

  /** So their map values differ, in one epoch and for equal keys too. */
  lemma ValsDiffer(c: Crypto, k: ServKeys, e: U64, uid: U64, ver: U64, pk: Slice,
                   e': U64, uid': U64, ver': U64, pk': Slice, q: set<Bytes>)
    requires LabelsInjective(c, k) && (uid != uid' || ver != ver') && CollisionFree(c.hash, q)
    requires HashedOpen(c, k, uid, ver, pk, q) && HashedOpen(c, k, uid', ver', pk', q)
    ensures CompMapVal(c, e, OpenFor(c, k, uid, ver, pk)) != CompMapVal(c, e', OpenFor(c, k, uid', ver', pk'))
  {
    hide MapLabel, CommitOpenEncode, CompMapVal, OpenFor, LabelsInjective;
    var open, open' := OpenFor(c, k, uid, ver, pk), OpenFor(c, k, uid', ver', pk');
    RandsDiffer(c, k, uid, ver, pk, uid', ver', pk', q);
    if CompMapVal(c, e, open) == CompMapVal(c, e', open') {
      CompMapValInjective(c, e, open, e', open');
      CommitOpenInjective(open, open');
    }
  }

  /** Servers with different secrets of one length open one version differently. */
  lemma SecretsDiffer(c: Crypto, k: ServKeys, k': ServKeys, uid: U64, ver: U64, pk: Slice, q: set<Bytes>)
    requires |k.commitSecret| == |k'.commitSecret| && k.commitSecret != k'.commitSecret && CollisionFree(c.hash, q)
    requires HashedOpen(c, k, uid, ver, pk, q) && HashedOpen(c, k', uid, ver, pk, q)
    ensures OpenFor(c, k, uid, ver, pk).rand != OpenFor(c, k', uid, ver, pk).rand
  {
    hide MapLabel, CommitOpenEncode;
    ConcatDiffers(k.commitSecret, Label(c, k, uid, ver), k'.commitSecret, Label(c, k', uid, ver));
  }

  /** In every reachable state, no two registered versions have the same value in the public map. */
  lemma StoredValsDiffer(c: Crypto, k: ServKeys, st: ServState, uid: U64, ver: U64, uid': U64, ver': U64, q: set<Bytes>)
    requires LabelsInjective(c, k) && ServInv(c, k, st) && (uid != uid' || ver != ver') && CollisionFree(c.hash, q)
    requires ver < |Versions(st.log, uid)| && ver' < |Versions(st.log, uid')|
    requires HashedOpen(c, k, uid, ver, Versions(st.log, uid)[ver].open.val, q)
    requires HashedOpen(c, k, uid', ver', Versions(st.log, uid')[ver'].open.val, q)
    ensures var m := KeyMapOf(st);
            && Label(c, k, uid, ver) in m && Label(c, k, uid', ver') in m
            && m[Label(c, k, uid, ver)] != m[Label(c, k, uid', ver')]
  {
    hide MapLabel, CommitOpenEncode, CompMapVal, OpenFor, LabelsInjective, CollisionFree, HashedOpen, ServInv;
    var put, put' := Versions(st.log, uid)[ver], Versions(st.log, uid')[ver'];
    UserFacts(c, k, st, uid);
    UserFacts(c, k, st, uid');
    VersionInMap(c, k, KeyMapOf(st), Versions(st.log, uid), uid, ver);
    VersionInMap(c, k, KeyMapOf(st), Versions(st.log, uid'), uid', ver');
    ValsDiffer(c, k, put.epoch, uid, ver, put.open.val, put'.epoch, uid', ver', put'.open.val, q);
  }

  // ---- auditors accept them

  /** Audit of the server for one epoch; none past the end. */
  function ServAudit(st: ServState, epoch: U64): Option<UpdateProof> {
    if epoch >= |st.hist| then None else Some(UpdateProof(st.hist[epoch].updates, st.hist[epoch].sig))
  }

  /** An audit fails exactly past the last epoch; else it has what the server recorded. */
  lemma AuditErrs(st: ServState, epoch: U64)
    ensures ServAudit(st, epoch).None? <==> epoch >= |st.hist|
    ensures epoch < |st.hist| ==>
              ServAudit(st, epoch) == Some(UpdateProof(st.hist[epoch].updates, st.hist[epoch].sig))
  {
  }

  function Replay(st: ServState, n: nat): seq<UpdateProof>
    requires n <= |st.hist| < U64_BOUND
  {
    seq(n, e requires 0 <= e < n => ServAudit(st, e).value)
  }

  /** What an auditor publishes about an epoch of the server. */
  function HonestInfo(c: Crypto, adtrSk: Bytes, st: ServState, e: U64): AdtrEpochInfo
    requires e < |st.hist|
  {
    AdtrEpochInfo(st.hist[e].dig, st.hist[e].sig, Auditor.SignDig(c, adtrSk, e, st.hist[e].dig))
  }

  /** A fresh auditor that replays the server's epochs rejects none of them and has the server's
      map, hence its digest, at every epoch. */
  lemma {:induction false} AuditorAccepts(c: Crypto, k: ServKeys, adtrSk: Bytes, st: ServState, n: nat)
    requires ServInv(c, k, st) && n <= |st.hist|
    ensures Auditor.Run(c, adtrSk, Replay(st, n)).maps == st.maps[..n]
    ensures n > 0 ==>
              !Auditor.AfterUpdate(c, adtrSk, Auditor.Run(c, adtrSk, Replay(st, n - 1)), ServAudit(st, n - 1).value).1
    ensures forall e: nat | e < n :: Auditor.Run(c, adtrSk, Replay(st, n)).infos[e] == HonestInfo(c, adtrSk, st, e)
  {
    hide Registered, Auditor.UpdatesOk, MapDigest, Auditor.SignDig;
    if n > 0 {
      AuditorAccepts(c, k, adtrSk, st, n - 1);
      var proofs := Replay(st, n);
      assert proofs[..n - 1] == Replay(st, n - 1);
      assert EpochOk(c, k, st, n - 1);
      assert st.maps[..n] == st.maps[..n - 1] + [st.maps[n - 1]];
    }
  }

  /** adtr answers from what an auditor has recorded, once it has the epoch. */
  ghost predicate AnswersFrom(adtr: U64 -> AdtrEpochInfo, st: Auditor.AdtrState) {
    forall e: U64 | e < |st.infos| :: adtr(e) == st.infos[e]
  }

  /** A client's audit with an auditor that has replayed all epochs succeeds. */
  lemma HonestAuditPasses(c: Crypto, k: ServKeys, st: ServState, cli: CliState, adtrSk: Bytes, adtrPk: Bytes,
                          adtr: U64 -> AdtrEpochInfo)
    requires KeysOk(c, k) && ServInv(c, k, st) && SigKeyPair(c, adtrSk, adtrPk)
    requires ClientAgrees(cli, st.hist) && Inv(c, CliKeysOf(k), cli)
    requires AnswersFrom(adtr, Auditor.Run(c, adtrSk, Replay(st, |st.hist|)))
    ensures AuditOk(c, CliKeysOf(k), cli, adtrPk, adtr)
  {
    hide Registered, MapDigest, PreSigDigEncode, Auditor.UpdatesOk, LabelsInjective, VrfKeyPair;
    AuditorAccepts(c, k, adtrSk, st, |st.hist|);
    forall e | e in cli.seenDigs
      ensures AuditEpoch(c, cli.seenDigs[e], k.sigPk, adtrPk, adtr(cli.seenDigs[e].epoch)).NoErr?
    {
      assert EpochOk(c, k, st, e);
      assert adtr(e) == HonestInfo(c, adtrSk, st, e);
    }
  }

  // ---- evidence never frames the server

  function ServDigs(st: ServState): seq<Slice> {
    seq(|st.hist|, e requires 0 <= e < |st.hist| => st.hist[e].dig)
  }

  /** Every signature that the server gives out is on the digest of its epoch, one per epoch, so no
      evidence against it checks out. */
  lemma ServerNeverFramed(c: Crypto, k: ServKeys, st: ServState, evid: Evid)
    requires ServInv(c, k, st) && NoForgery(c, k.sigPk, SignedDigs(ServDigs(st)), {evid.sigDig0, evid.sigDig1})
    ensures forall e: nat | e < |st.hist| ::
              st.hist[e].sig == c.sign(k.sigSk, PreSigDigEncode([], PreSigDig(e, ServDigs(st)[e])))
    ensures !EvidOk(c, evid, k.sigPk)
  {
    hide Registered, MapDigest, PreSigDigEncode;
    forall e: nat | e < |st.hist|
      ensures st.hist[e].sig == c.sign(k.sigSk, PreSigDigEncode([], PreSigDig(e, ServDigs(st)[e])))
    {
      assert EpochOk(c, k, st, e);
    }
    HonestNeverFramed(c, k.sigPk, ServDigs(st), evid);
  }
}
