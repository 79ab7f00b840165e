/** alicebob/alicebob.go with a malicious server and an honest auditor: Bob's answer about
    Alice's key is what Alice's history has at Bob's epoch. */
module Security {
  import opened Bytes
  import opened MerkleTrie
  import opened MerkleProofs
  import opened KtTypes
  import opened Evidence
  import opened KtClient
  import opened History
  import Auditor = KtAuditor

  // ---- Alice: any number of puts and self-monitoring calls, all successful

  datatype AliceOp = AlicePut(pk: Slice, putReply: PutReply) | AliceSelfMon(selfMonReply: SelfMonReply)

  datatype Alice = Alice(cli: CliState, hist: seq<HistEntry>)

  function CliOp(op: AliceOp): Op {
    match op
    case AlicePut(pk, r) => PutOp(pk, Some(r))
    case AliceSelfMon(r) => SelfMonOp(Some(r))
  }

  /** The history reaches just to the epoch of the last successful call, so that the assertion of
      extendHist holds at the next one. */
  ghost predicate HistFits(a: Alice) {
    |a.hist| == a.cli.nextEpoch
  }

  /** The epoch that a successful call returns. */
  function OpEpoch(op: AliceOp): U64 {
    match op
    case AlicePut(_, r) => r.dig.epoch
    case AliceSelfMon(r) => r.dig.epoch
  }

  /** One successful call, and the extension of the history that follows it. */
  ghost function AliceStep(c: Crypto, k: CliKeys, a: Alice, op: AliceOp): (a': Alice)
    requires a.cli.nextVer + 1 < U64_BOUND && HistFits(a)
    requires Step(c, k, a.cli, CliOp(op)).1.NoErr?
    ensures HistFits(a')
  {
    hide PutReplyOk, SelfMonReplyOk;
    var cli := Step(c, k, a.cli, CliOp(op)).0;
    AliceEpochs(c, k, a, op);
    match op
    case AlicePut(pk, r) => Alice(cli, ExtendHist(a.hist, r.dig.epoch) + [HistEntry(true, pk)])
    case AliceSelfMon(r) => Alice(cli, ExtendHist(a.hist, r.dig.epoch + 1))
  }

  lemma AliceEpochs(c: Crypto, k: CliKeys, a: Alice, op: AliceOp)
    requires a.cli.nextVer + 1 < U64_BOUND
    requires Step(c, k, a.cli, CliOp(op)).1.NoErr?
    ensures var cli := Step(c, k, a.cli, CliOp(op)).0;
            match op
            case AlicePut(pk, r) => a.cli.nextEpoch <= r.dig.epoch && cli.nextEpoch == r.dig.epoch + 1
            case AliceSelfMon(r) => a.cli.nextEpoch <= r.dig.epoch + 1 == cli.nextEpoch
  {
  }

  /** The state after these calls; none if one of them failed. */
  ghost function AliceRun(c: Crypto, k: CliKeys, uid: U64, ops: seq<AliceOp>): (r: Option<Alice>)
    requires |ops| < U64_BOUND - 1
    ensures r.Some? ==> HistFits(r.value) && r.value.cli.nextVer <= |ops|
  {
    if ops == [] then Some(Alice(Init(uid), []))
    else
      match AliceRun(c, k, uid, ops[..|ops| - 1])
      case None => None
      case Some(a) =>
        if Step(c, k, a.cli, CliOp(ops[|ops| - 1])).1.Failed? then None
        else Some(AliceStep(c, k, a, ops[|ops| - 1]))
  }

  /** The versions that a run has put. */
  function PutsOf(ops: seq<AliceOp>): seq<PutRec> {
    if ops == [] then [] else PutsOf(ops[..|ops| - 1]) + NewPut(ops[|ops| - 1])
  }

  function NewPut(op: AliceOp): seq<PutRec> {
    match op
    case AlicePut(_, r) => [PutRec(r.dig.epoch, r.latest.pkOpen)]
    case AliceSelfMon(_) => []
  }

  lemma AliceStepHistory(c: Crypto, k: CliKeys, a: Alice, op: AliceOp, puts: seq<PutRec>)
    requires a.cli.nextVer + 1 < U64_BOUND && HistFits(a)
    requires Step(c, k, a.cli, CliOp(op)).1.NoErr?
    requires Records(a.hist, puts)
    ensures Records(AliceStep(c, k, a, op).hist, puts + NewPut(op))
    ensures AliceStep(c, k, a, op).cli.nextVer == a.cli.nextVer + |NewPut(op)|
  {
    hide Records, PutReplyOk, SelfMonReplyOk, CheckDig;
    AliceEpochs(c, k, a, op);
    match op
    case AlicePut(pk, r) =>
      AliceKey(c, k, a, op);
      AppendKeepsRecords(a.hist, puts, PutRec(r.dig.epoch, r.latest.pkOpen));
    case AliceSelfMon(r) =>
      ExtendKeepsRecords(a.hist, puts, r.dig.epoch + 1);
      assert puts + [] == puts;
  }

  lemma AliceKey(c: Crypto, k: CliKeys, a: Alice, op: AliceOp)
    requires a.cli.nextVer + 1 < U64_BOUND && op.AlicePut? && Step(c, k, a.cli, CliOp(op)).1.NoErr?
    ensures op.pk == op.putReply.latest.pkOpen.val && op.putReply.latest.epochAdded == op.putReply.dig.epoch
  {
  }

  /** Alice's history is the history of her puts, one version per put, at increasing epochs. */
  lemma {:induction false} AliceHistory(c: Crypto, k: CliKeys, uid: U64, ops: seq<AliceOp>)
    requires |ops| < U64_BOUND - 1 && AliceRun(c, k, uid, ops).Some?
    ensures var a := AliceRun(c, k, uid, ops).value;
            && Records(a.hist, PutsOf(ops)) && |PutsOf(ops)| == a.cli.nextVer
            && a.cli.uid == uid && Inv(c, k, a.cli) && |a.hist| == a.cli.nextEpoch
  {
    hide Records, Step, AliceStep, Inv;
    if ops == [] {
      EmptyHistory(c, k, uid);
    } else {
      var init, op := ops[..|ops| - 1], ops[|ops| - 1];
      AliceHistory(c, k, uid, init);
      var a := AliceRun(c, k, uid, init).value;
      StepKeeps(c, k, a.cli, CliOp(op));
      AliceStepHistory(c, k, a, op, PutsOf(init));
      AliceStepCli(c, k, a, op);
    }
  }

  /** After a call that returned an epoch, the history has an entry for every epoch up to it, and no
      more. */
  lemma HistoryReaches(c: Crypto, k: CliKeys, uid: U64, ops: seq<AliceOp>)
    requires 0 < |ops| < U64_BOUND - 1 && AliceRun(c, k, uid, ops).Some?
    ensures |AliceRun(c, k, uid, ops).value.hist| == OpEpoch(ops[|ops| - 1]) + 1
  {
    hide Step;
    var a := AliceRun(c, k, uid, ops[..|ops| - 1]).value;
    AliceEpochs(c, k, a, ops[|ops| - 1]);
    AliceStepCli(c, k, a, ops[|ops| - 1]);
  }

  function CliOps(ops: seq<AliceOp>): seq<Op> {
    seq(|ops|, i requires 0 <= i < |ops| => CliOp(ops[i]))
  }

  /** The run is there if and only if none of the client's calls returned an error, and then her client is
      as after these calls. */
  lemma {:induction false} AliceRunIff(c: Crypto, k: CliKeys, uid: U64, ops: seq<AliceOp>)
    requires |ops| < U64_BOUND - 1
    ensures AliceRun(c, k, uid, ops).Some? <==> forall err | err in Run(c, k, uid, CliOps(ops)).errs :: err.NoErr?
    ensures AliceRun(c, k, uid, ops).Some? ==> AliceRun(c, k, uid, ops).value.cli == Run(c, k, uid, CliOps(ops)).st
  {
    hide Step;
    if ops != [] {
      var n := |ops| - 1;
      assert CliOps(ops)[..n] == CliOps(ops[..n]);
      AliceRunIff(c, k, uid, ops[..n]);
      var before, after := Run(c, k, uid, CliOps(ops[..n])), Run(c, k, uid, CliOps(ops));
      assert after.errs == before.errs + [Step(c, k, before.st, CliOp(ops[n])).1];
      assert forall err :: err in after.errs <==> err in before.errs || err == Step(c, k, before.st, CliOp(ops[n])).1;
      var init := AliceRun(c, k, uid, ops[..n]);
      if init.Some? && Step(c, k, init.value.cli, CliOp(ops[n])).1.NoErr? {
        AliceStepCli(c, k, init.value, ops[n]);
      }
    }
  }

  lemma EmptyHistory(c: Crypto, k: CliKeys, uid: U64)
    ensures Records([], []) && Inv(c, k, Init(uid))
  {
  }

  lemma AliceStepCli(c: Crypto, k: CliKeys, a: Alice, op: AliceOp)
    requires a.cli.nextVer + 1 < U64_BOUND && HistFits(a)
    requires Step(c, k, a.cli, CliOp(op)).1.NoErr?
    ensures AliceStep(c, k, a, op).cli == Step(c, k, a.cli, CliOp(op)).0
    ensures Step(c, k, a.cli, CliOp(op)).0.uid == a.cli.uid
  {
    hide PutReplyOk, SelfMonReplyOk, CheckDig;
  }

  // ---- what is hashed

  /** The set contains what is hashed to compute the digests of all these maps. */
  ghost predicate HashedMaps(h: HashFn, maps: seq<KeyMap>, q: set<Bytes>) {
    forall e: nat | e < |maps| :: Preimages(h, TrieOf(maps[e])) <= q
  }

  /** The set contains what is hashed to check these messages. */
  ghost predicate HashedMemb(c: Crypto, k: CliKeys, uid: U64, ver: U64, memb: Memb, q: set<Bytes>) {
    && CommitOpenEncode([], memb.pkOpen) in q
    && VerifyPreimages(c.hash, true, MapLabel(c, k.servVrfPk, uid, ver),
                       CompMapVal(c, memb.epochAdded, memb.pkOpen), memb.merkleProof) <= q
  }

  ghost predicate HashedMembHide(c: Crypto, k: CliKeys, uid: U64, ver: U64, memb: MembHide, q: set<Bytes>) {
    VerifyPreimages(c.hash, true, MapLabel(c, k.servVrfPk, uid, ver), memb.mapVal, memb.merkleProof) <= q
  }

  ghost predicate HashedNonMemb(c: Crypto, k: CliKeys, uid: U64, ver: U64, nonMemb: NonMemb, q: set<Bytes>) {
    VerifyPreimages(c.hash, false, MapLabel(c, k.servVrfPk, uid, ver), [], nonMemb.merkleProof) <= q
  }

  ghost predicate HashedOp(c: Crypto, k: CliKeys, cli: CliState, op: AliceOp, q: set<Bytes>)
    requires cli.nextVer + 1 < U64_BOUND
  {
    match op
    case AlicePut(_, r) =>
      HashedMemb(c, k, cli.uid, cli.nextVer, r.latest, q) && HashedNonMemb(c, k, cli.uid, cli.nextVer + 1, r.bound, q)
    case AliceSelfMon(r) => HashedNonMemb(c, k, cli.uid, cli.nextVer, r.bound, q)
  }

  ghost predicate HashedRun(c: Crypto, k: CliKeys, uid: U64, ops: seq<AliceOp>, q: set<Bytes>)
    requires |ops| < U64_BOUND - 1
  {
    ops != [] && AliceRun(c, k, uid, ops[..|ops| - 1]).Some? ==>
      && HashedRun(c, k, uid, ops[..|ops| - 1], q)
      && HashedOp(c, k, AliceRun(c, k, uid, ops[..|ops| - 1]).value.cli, ops[|ops| - 1], q)
  }

  ghost predicate HashedGet(c: Crypto, k: CliKeys, uid: U64, r: GetReply, q: set<Bytes>) {
    && (forall ver: nat | ver < |r.hist| :: HashedMembHide(c, k, uid, ver, r.hist[ver], q))
    && (r.isReg ==> HashedMemb(c, k, uid, |r.hist|, r.latest, q))
    && HashedNonMemb(c, k, uid, if r.isReg then |r.hist| + 1 else 0, r.bound, q)
  }

  /** For every run there is such a set: what is hashed in it, or more. */
  lemma HashedExists(c: Crypto, k: CliKeys, maps: seq<KeyMap>, aliceUid: U64, ops: seq<AliceOp>, r: GetReply)
    returns (q: set<Bytes>)
    requires |ops| < U64_BOUND - 1
    ensures HashedMaps(c.hash, maps, q) && HashedRun(c, k, aliceUid, ops, q) && HashedGet(c, k, aliceUid, r, q)
  {
    hide HashedRun, HashedGet;
    var q0 := MapsHashes(c.hash, maps);
    var q1 := RunHashes(c, k, aliceUid, ops);
    var q2 := GetHashes(c, k, aliceUid, r);
    q := q0 + q1 + q2;
    MoreRun(c, k, aliceUid, ops, q1, q);
    MoreGet(c, k, aliceUid, r, q2, q);
  }

  lemma {:induction false} MapsHashes(h: HashFn, maps: seq<KeyMap>) returns (q: set<Bytes>)
    ensures HashedMaps(h, maps, q)
  {
    hide Preimages, TrieOf;
    q := {};
    if maps != [] {
      var n := |maps| - 1;
      var q0 := MapsHashes(h, maps[..n]);
      q := q0 + Preimages(h, TrieOf(maps[n]));
      forall e: nat | e < |maps|
        ensures Preimages(h, TrieOf(maps[e])) <= q
      {
        if e < n {
          assert maps[..n][e] == maps[e];
          assert Preimages(h, TrieOf(maps[..n][e])) <= q0;
        }
      }
    }
  }

  lemma MoreOp(c: Crypto, k: CliKeys, cli: CliState, op: AliceOp, q: set<Bytes>, q': set<Bytes>)
    requires cli.nextVer + 1 < U64_BOUND && HashedOp(c, k, cli, op, q) && q <= q'
    ensures HashedOp(c, k, cli, op, q')
  {
    hide VerifyPreimages;
  }

  lemma {:induction false} MoreRun(c: Crypto, k: CliKeys, uid: U64, ops: seq<AliceOp>, q: set<Bytes>, q': set<Bytes>)
    requires |ops| < U64_BOUND - 1 && HashedRun(c, k, uid, ops, q) && q <= q'
    ensures HashedRun(c, k, uid, ops, q')
  {
    hide HashedOp, Step;
    if ops != [] && AliceRun(c, k, uid, ops[..|ops| - 1]).Some? {
      MoreRun(c, k, uid, ops[..|ops| - 1], q, q');
      MoreOp(c, k, AliceRun(c, k, uid, ops[..|ops| - 1]).value.cli, ops[|ops| - 1], q, q');
    }
  }

  lemma OpHashes(c: Crypto, k: CliKeys, cli: CliState, op: AliceOp) returns (q: set<Bytes>)
    requires cli.nextVer + 1 < U64_BOUND
    ensures HashedOp(c, k, cli, op, q)
  {
    hide VerifyPreimages, CompMapVal;
    match op
    case AlicePut(_, r) =>
      q := {CommitOpenEncode([], r.latest.pkOpen)}
           + VerifyPreimages(c.hash, true, MapLabel(c, k.servVrfPk, cli.uid, cli.nextVer),
                             CompMapVal(c, r.latest.epochAdded, r.latest.pkOpen), r.latest.merkleProof)
           + VerifyPreimages(c.hash, false, MapLabel(c, k.servVrfPk, cli.uid, cli.nextVer + 1), [],
                             r.bound.merkleProof);
    case AliceSelfMon(r) =>
      q := VerifyPreimages(c.hash, false, MapLabel(c, k.servVrfPk, cli.uid, cli.nextVer), [], r.bound.merkleProof);
  }

  lemma {:induction false} RunHashes(c: Crypto, k: CliKeys, uid: U64, ops: seq<AliceOp>) returns (q: set<Bytes>)
    requires |ops| < U64_BOUND - 1
    ensures HashedRun(c, k, uid, ops, q)
  {
    hide HashedOp, Step;
    q := {};
    if ops != [] && AliceRun(c, k, uid, ops[..|ops| - 1]).Some? {
      var q0 := RunHashes(c, k, uid, ops[..|ops| - 1]);
      var cli := AliceRun(c, k, uid, ops[..|ops| - 1]).value.cli;
      var q1 := OpHashes(c, k, cli, ops[|ops| - 1]);
      q := q0 + q1;
      MoreRun(c, k, uid, ops[..|ops| - 1], q0, q);
      MoreOp(c, k, cli, ops[|ops| - 1], q1, q);
    }
  }

  lemma MoreGet(c: Crypto, k: CliKeys, uid: U64, r: GetReply, q: set<Bytes>, q': set<Bytes>)
    requires HashedGet(c, k, uid, r, q) && q <= q'
    ensures HashedGet(c, k, uid, r, q')
  {
    hide VerifyPreimages, CompMapVal;
  }

  lemma {:induction false} HistHashes(c: Crypto, k: CliKeys, uid: U64, hist: Hist, n: nat) returns (q: set<Bytes>)
    requires n <= |hist|
    ensures forall ver: nat | ver < n :: HashedMembHide(c, k, uid, ver, hist[ver], q)
  {
    hide VerifyPreimages;
    q := {};
    if n > 0 {
      q := HistHashes(c, k, uid, hist, n - 1);
      var memb := hist[n - 1];
      q := q + VerifyPreimages(c.hash, true, MapLabel(c, k.servVrfPk, uid, n - 1), memb.mapVal, memb.merkleProof);
    }
  }

  lemma GetHashes(c: Crypto, k: CliKeys, uid: U64, r: GetReply) returns (q: set<Bytes>)
    ensures HashedGet(c, k, uid, r, q)
  {
    hide VerifyPreimages, CompMapVal;
    q := HistHashes(c, k, uid, r.hist, |r.hist|);
    q := q + {CommitOpenEncode([], r.latest.pkOpen)}
         + VerifyPreimages(c.hash, true, MapLabel(c, k.servVrfPk, uid, |r.hist|),
                           CompMapVal(c, r.latest.epochAdded, r.latest.pkOpen), r.latest.merkleProof)
         + VerifyPreimages(c.hash, false, MapLabel(c, k.servVrfPk, uid, if r.isReg then |r.hist| + 1 else 0), [],
                           r.bound.merkleProof);
  }

  // ---- what accepted messages say about the auditor's maps

  ghost predicate Holds(c: Crypto, k: CliKeys, m: KeyMap, uid: U64, ver: U64, val: Option<Slice>) {
    Lookup(m, MapLabel(c, k.servVrfPk, uid, ver)) == val
  }

  lemma MembTruth(c: Crypto, k: CliKeys, m: KeyMap, uid: U64, ver: U64, memb: Memb, dig: Bytes, q: set<Bytes>)
    requires MembOk(c, k.servVrfPk, uid, ver, dig, memb) && dig == MapDigest(c.hash, m)
    requires HashedMemb(c, k, uid, ver, memb, q) && Preimages(c.hash, TrieOf(m)) <= q && CollisionFree(c.hash, q)
    ensures Holds(c, k, m, uid, ver, Some(CompMapVal(c, memb.epochAdded, memb.pkOpen)))
  {
    hide Accepts, CompMapVal, VerifyPreimages;
    VerifiedContent(c.hash, q, m, true, MapLabel(c, k.servVrfPk, uid, ver),
                    CompMapVal(c, memb.epochAdded, memb.pkOpen), memb.merkleProof);
  }

  lemma MembHideTruth(c: Crypto, k: CliKeys, m: KeyMap, uid: U64, ver: U64, memb: MembHide, dig: Bytes, q: set<Bytes>)
    requires MembHideOk(c, k.servVrfPk, uid, ver, dig, memb) && dig == MapDigest(c.hash, m)
    requires HashedMembHide(c, k, uid, ver, memb, q) && Preimages(c.hash, TrieOf(m)) <= q && CollisionFree(c.hash, q)
    ensures Holds(c, k, m, uid, ver, Some(memb.mapVal))
  {
    hide Accepts, VerifyPreimages;
    VerifiedContent(c.hash, q, m, true, MapLabel(c, k.servVrfPk, uid, ver), memb.mapVal, memb.merkleProof);
  }

  lemma NonMembTruth(c: Crypto, k: CliKeys, m: KeyMap, uid: U64, ver: U64, nonMemb: NonMemb, dig: Bytes, q: set<Bytes>)
    requires NonMembOk(c, k.servVrfPk, uid, ver, dig, nonMemb) && dig == MapDigest(c.hash, m)
    requires HashedNonMemb(c, k, uid, ver, nonMemb, q) && Preimages(c.hash, TrieOf(m)) <= q && CollisionFree(c.hash, q)
    ensures Holds(c, k, m, uid, ver, None)
  {
    hide Accepts, VerifyPreimages;
    VerifiedContent(c.hash, q, m, false, MapLabel(c, k.servVrfPk, uid, ver), [], nonMemb.merkleProof);
  }

  /** All digests that the client has recorded are digests of the auditor's maps. */
  ghost predicate Truthful(c: Crypto, cli: CliState, maps: seq<KeyMap>) {
    forall e | e in cli.seenDigs :: e < |maps| && cli.seenDigs[e].dig == MapDigest(c.hash, maps[e])
  }

  /** The auditor's signatures that an audit checks. */
  function AuditSigs(cli: CliState, adtr: U64 -> AdtrEpochInfo): set<SigDig> {
    set e | e in cli.seenDigs ::
      SigDig(cli.seenDigs[e].epoch, adtr(cli.seenDigs[e].epoch).dig, adtr(cli.seenDigs[e].epoch).adtrSig)
  }

  /** An audit without error makes the client's digests the honest auditor's. */
  lemma AuditedTruth(c: Crypto, k: CliKeys, cli: CliState, adtrSk: Bytes, adtrPk: Bytes, st: Auditor.AdtrState,
                     adtr: U64 -> AdtrEpochInfo)
    requires Inv(c, k, cli) && AuditOk(c, k, cli, adtrPk, adtr)
    requires Auditor.Inv(c, adtrSk, st) && NoForgery(c, adtrPk, SignedDigs(Auditor.Digs(st)), AuditSigs(cli, adtr))
    ensures Truthful(c, cli, st.maps)
  {
    forall e | e in cli.seenDigs
      ensures e < |st.maps| && cli.seenDigs[e].dig == MapDigest(c.hash, st.maps[e])
    {
      var info := adtr(cli.seenDigs[e].epoch);
      assert AuditEpoch(c, cli.seenDigs[e], k.servSigPk, adtrPk, info).NoErr?;
      SignedDigOfEpoch(c, adtrPk, Auditor.Digs(st), AuditSigs(cli, adtr), SigDig(e, info.dig, info.adtrSig));
    }
  }

  lemma TruthfulBefore(c: Crypto, cli: CliState, cli': CliState, maps: seq<KeyMap>)
    requires Extends(cli, cli') && Truthful(c, cli', maps)
    ensures Truthful(c, cli, maps)
  {
  }

  /** Version i was added to the auditor's map in the epoch of Alice's put, with her key. */
  ghost predicate PutHolds(c: Crypto, k: CliKeys, uid: U64, maps: seq<KeyMap>, i: U64, put: PutRec, q: set<Bytes>) {
    && put.epoch < |maps| && CommitOpenEncode([], put.open) in q
    && Holds(c, k, maps[put.epoch], uid, i, Some(CompMapVal(c, put.epoch, put.open)))
  }

  /** All of Alice's versions were, and the version after the last one is absent at the end. */
  ghost predicate PutsHold(c: Crypto, k: CliKeys, uid: U64, maps: seq<KeyMap>, puts: seq<PutRec>, nextEpoch: nat,
                           q: set<Bytes>)
    requires |puts| < U64_BOUND
  {
    && (forall i: nat | i < |puts| :: PutHolds(c, k, uid, maps, i, puts[i], q))
    && nextEpoch <= |maps|
    && (nextEpoch > 0 ==> Holds(c, k, maps[nextEpoch - 1], uid, |puts|, None))
    && (nextEpoch == 0 ==> puts == [])
  }

  lemma PutsHoldStep(c: Crypto, k: CliKeys, uid: U64, maps: seq<KeyMap>, puts: seq<PutRec>, nextEpoch: nat,
                     next: seq<PutRec>, epoch: nat, q: set<Bytes>)
    requires |puts| + 1 < U64_BOUND && PutsHold(c, k, uid, maps, puts, nextEpoch, q)
    requires |next| <= 1 && (next != [] ==> PutHolds(c, k, uid, maps, |puts|, next[0], q))
    requires epoch < |maps| && Holds(c, k, maps[epoch], uid, |puts| + |next|, None)
    ensures PutsHold(c, k, uid, maps, puts + next, epoch + 1, q)
  {
    hide PutHolds, Holds;
  }

  lemma AliceStepTruth(c: Crypto, k: CliKeys, a: Alice, op: AliceOp, maps: seq<KeyMap>, puts: seq<PutRec>,
                       q: set<Bytes>)
    requires a.cli.nextVer + 1 < U64_BOUND && Step(c, k, a.cli, CliOp(op)).1.NoErr?
    requires Truthful(c, Step(c, k, a.cli, CliOp(op)).0, maps)
    requires |puts| == a.cli.nextVer && PutsHold(c, k, a.cli.uid, maps, puts, a.cli.nextEpoch, q)
    requires HashedMaps(c.hash, maps, q) && HashedOp(c, k, a.cli, op, q) && CollisionFree(c.hash, q)
    ensures PutsHold(c, k, a.cli.uid, maps, puts + NewPut(op), Step(c, k, a.cli, CliOp(op)).0.nextEpoch, q)
  {
    hide MembOk, NonMembOk, CompMapVal, HashedMemb, HashedNonMemb, Holds, CollisionFree, CheckDig, PutsHold;
    var cli := Step(c, k, a.cli, CliOp(op)).0;
    var dig := if op.AlicePut? then op.putReply.dig else op.selfMonReply.dig;
    assert cli.seenDigs[dig.epoch] == dig && cli.nextEpoch == dig.epoch + 1;
    var m := maps[dig.epoch];
    match op
    case AlicePut(pk, r) =>
      MembTruth(c, k, m, a.cli.uid, a.cli.nextVer, r.latest, dig.dig, q);
      NonMembTruth(c, k, m, a.cli.uid, a.cli.nextVer + 1, r.bound, dig.dig, q);
      HashedOpening(c, k, a.cli.uid, a.cli.nextVer, r.latest, q);
      PutsHoldStep(c, k, a.cli.uid, maps, puts, a.cli.nextEpoch, NewPut(op), dig.epoch, q);
    case AliceSelfMon(r) =>
      NonMembTruth(c, k, m, a.cli.uid, a.cli.nextVer, r.bound, dig.dig, q);
      PutsHoldStep(c, k, a.cli.uid, maps, puts, a.cli.nextEpoch, NewPut(op), dig.epoch, q);
  }

  lemma {:induction false} AliceTruth(c: Crypto, k: CliKeys, uid: U64, ops: seq<AliceOp>, maps: seq<KeyMap>,
                                      q: set<Bytes>)
    requires |ops| < U64_BOUND - 1 && AliceRun(c, k, uid, ops).Some?
    requires Truthful(c, AliceRun(c, k, uid, ops).value.cli, maps)
    requires HashedMaps(c.hash, maps, q) && HashedRun(c, k, uid, ops, q) && CollisionFree(c.hash, q)
    ensures |PutsOf(ops)| < U64_BOUND
    ensures PutsHold(c, k, uid, maps, PutsOf(ops), AliceRun(c, k, uid, ops).value.cli.nextEpoch, q)
  {
    hide Step, AliceStep, HashedOp, HashedMaps, CollisionFree, Truthful;
    AliceHistory(c, k, uid, ops);
    if ops != [] {
      var init, op := ops[..|ops| - 1], ops[|ops| - 1];
      var a := AliceRun(c, k, uid, init).value;
      AliceHistory(c, k, uid, init);
      AliceStepCli(c, k, a, op);
      StepKeeps(c, k, a.cli, CliOp(op));
      TruthfulBefore(c, a.cli, Step(c, k, a.cli, CliOp(op)).0, maps);
      AliceTruth(c, k, uid, init, maps, q);
      AliceStepTruth(c, k, a, op, maps, PutsOf(init), q);
    }
  }

  lemma HashedOpening(c: Crypto, k: CliKeys, uid: U64, ver: U64, memb: Memb, q: set<Bytes>)
    requires HashedMemb(c, k, uid, ver, memb, q)
    ensures CommitOpenEncode([], memb.pkOpen) in q
  {
  }

  // ---- the auditor's maps decide the answer

  /** What Bob's accepted answer says about the map of his epoch. */
  ghost predicate AnswerHolds(c: Crypto, k: CliKeys, uid: U64, m: KeyMap, r: GetReply) {
    && (forall ver: nat | ver < |r.hist| :: Holds(c, k, m, uid, ver, Some(r.hist[ver].mapVal)))
    && (|r.hist| > 0 ==> r.isReg)
    && (r.isReg ==> Holds(c, k, m, uid, |r.hist|, Some(CompMapVal(c, r.latest.epochAdded, r.latest.pkOpen))))
    && Holds(c, k, m, uid, if r.isReg then |r.hist| + 1 else 0, None)
  }

  lemma AnswerTruth(c: Crypto, k: CliKeys, cli: CliState, uid: U64, m: KeyMap, r: GetReply, q: set<Bytes>)
    requires GetReplyOk(c, k, cli, uid, r) && r.dig.dig == MapDigest(c.hash, m)
    requires HashedGet(c, k, uid, r, q) && Preimages(c.hash, TrieOf(m)) <= q && CollisionFree(c.hash, q)
    ensures AnswerHolds(c, k, uid, m, r)
  {
    hide MembOk, MembHideOk, NonMembOk, CompMapVal, HashedMemb, HashedMembHide, HashedNonMemb, Holds;
    forall ver: nat | ver < |r.hist|
      ensures Holds(c, k, m, uid, ver, Some(r.hist[ver].mapVal))
    {
      MembHideTruth(c, k, m, uid, ver, r.hist[ver], r.dig.dig, q);
    }
    if r.isReg {
      MembTruth(c, k, m, uid, |r.hist|, r.latest, r.dig.dig, q);
    }
    NonMembTruth(c, k, m, uid, if r.isReg then |r.hist| + 1 else 0, r.bound, r.dig.dig, q);
  }

  /** Version i is in the map of epoch e exactly from the epoch of its put on, unchanged. */
  lemma VersionFromPut(c: Crypto, k: CliKeys, uid: U64, maps: seq<KeyMap>, puts: seq<PutRec>, nextEpoch: nat,
                       q: set<Bytes>, i: nat, e: nat)
    requires |maps| <= U64_BOUND && Auditor.AppendOnly(maps) && Auditor.BirthEpochs(maps)
    requires |puts| < U64_BOUND && PutsHold(c, k, uid, maps, puts, nextEpoch, q) && i < |puts| && e < |maps|
    ensures Holds(c, k, maps[e], uid, i,
                  if puts[i].epoch <= e then Some(CompMapVal(c, puts[i].epoch, puts[i].open)) else None)
    ensures CommitOpenEncode([], puts[i].open) in q
  {
    hide CompMapVal, ValEpoch, MapLabel;
    var l, born := MapLabel(c, k.servVrfPk, uid, i), puts[i].epoch;
    assert PutHolds(c, k, uid, maps, i, puts[i], q);
    assert l in maps[born] && maps[born][l] == CompMapVal(c, born, puts[i].open);
    CompMapValEpoch(c, born, puts[i].open);
    assert Auditor.BornAt(maps, l, born);
    if born <= e {
      assert Auditor.Kept(maps[born], maps[e]);
    }
  }

  lemma PutsReach(c: Crypto, k: CliKeys, uid: U64, maps: seq<KeyMap>, puts: seq<PutRec>, nextEpoch: nat, q: set<Bytes>)
    requires |puts| < U64_BOUND && PutsHold(c, k, uid, maps, puts, nextEpoch, q)
    ensures nextEpoch <= |maps|
  {
  }

  /** The version after Alice's last one is absent from every map up to her last check. */
  lemma NextVersionAbsent(c: Crypto, k: CliKeys, uid: U64, maps: seq<KeyMap>, puts: seq<PutRec>, nextEpoch: nat,
                          q: set<Bytes>, e: nat)
    requires Auditor.AppendOnly(maps)
    requires |puts| < U64_BOUND && PutsHold(c, k, uid, maps, puts, nextEpoch, q) && e < nextEpoch <= |maps|
    ensures Holds(c, k, maps[e], uid, |puts|, None)
  {
    hide MapLabel;
    assert Auditor.Kept(maps[e], maps[nextEpoch - 1]);
  }

  lemma SameOpening(c: Crypto, e: U64, open: CommitOpen, e': U64, open': CommitOpen, q: set<Bytes>)
    requires CompMapVal(c, e, open) == CompMapVal(c, e', open')
    requires CommitOpenEncode([], open) in q && CommitOpenEncode([], open') in q && CollisionFree(c.hash, q)
    ensures open == open'
  {
    CompMapValInjective(c, e, open, e', open');
    CommitOpenInjective(open, open');
  }

  lemma AnswerRegistered(c: Crypto, k: CliKeys, uid: U64, maps: seq<KeyMap>, puts: seq<PutRec>, nextEpoch: nat,
                         r: GetReply, q: set<Bytes>)
    requires |maps| <= U64_BOUND && Auditor.AppendOnly(maps) && Auditor.BirthEpochs(maps)
    requires |puts| < U64_BOUND && Increasing(puts) && PutsHold(c, k, uid, maps, puts, nextEpoch, q)
    requires r.dig.epoch < nextEpoch <= |maps| && AnswerHolds(c, k, uid, maps[r.dig.epoch], r)
    requires r.isReg && CommitOpenEncode([], r.latest.pkOpen) in q && CollisionFree(c.hash, q)
    ensures EntryAt(puts, r.dig.epoch) == HistEntry(true, r.latest.pkOpen.val)
  {
    hide CompMapVal, MapLabel, EntryAt, Lookup, CollisionFree, PutsHold, Auditor.BirthEpochs, Auditor.AppendOnly;
    hide CommitOpenEncode;
    var e, n, v := r.dig.epoch, |puts|, |r.hist|;
    NextVersionAbsent(c, k, uid, maps, puts, nextEpoch, q, e);
    assert n < v ==> Holds(c, k, maps[e], uid, n, Some(r.hist[n].mapVal));
    assert v < n;
    VersionFromPut(c, k, uid, maps, puts, nextEpoch, q, v, e);
    if v + 1 < n {
      VersionFromPut(c, k, uid, maps, puts, nextEpoch, q, v + 1, e);
    }
    EntryIsVersion(puts, e, v);
    SameOpening(c, r.latest.epochAdded, r.latest.pkOpen, puts[v].epoch, puts[v].open, q);
  }

  /** With an append-only map, Alice's facts and Bob's facts leave only one answer. */
  lemma AnswerIsHistory(c: Crypto, k: CliKeys, uid: U64, maps: seq<KeyMap>, puts: seq<PutRec>, nextEpoch: nat,
                        r: GetReply, q: set<Bytes>)
    requires |maps| <= U64_BOUND && Auditor.AppendOnly(maps) && Auditor.BirthEpochs(maps)
    requires |puts| < U64_BOUND && Increasing(puts) && PutsHold(c, k, uid, maps, puts, nextEpoch, q)
    requires r.dig.epoch < nextEpoch <= |maps| && AnswerHolds(c, k, uid, maps[r.dig.epoch], r)
    requires r.isReg ==> CommitOpenEncode([], r.latest.pkOpen) in q
    requires CollisionFree(c.hash, q)
    ensures EntryAt(puts, r.dig.epoch) == if r.isReg then HistEntry(true, r.latest.pkOpen.val) else NO_ENTRY
  {
    hide CompMapVal, MapLabel, EntryAt, Lookup, CollisionFree, PutsHold, Auditor.BirthEpochs, Auditor.AppendOnly;
    if r.isReg {
      AnswerRegistered(c, k, uid, maps, puts, nextEpoch, r, q);
    } else {
      if |puts| > 0 {
        VersionFromPut(c, k, uid, maps, puts, nextEpoch, q, 0, r.dig.epoch);
      }
      EntryBeforeFirst(puts, r.dig.epoch);
    }
  }

  // ---- the whole run

  /** Whatever the server and the network answer: if Alice's calls succeed, Bob's Get of her key
      succeeds at an epoch her history reaches, and both clients' audits with an honest auditor
      succeed, then Bob's answer is what her history has at that epoch. This holds for any number of
      puts, any keys, any updates sent to the auditor, and any other calls in Bob's run, provided
      that no two of the strings hashed by the auditor, Alice and Bob collide. */
  lemma BobGetsAlicesKey(
      c: Crypto, k: CliKeys, q: set<Bytes>,
      adtrSk: Bytes, adtrPk: Bytes, updates: seq<UpdateProof>,
      aliceUid: U64, aliceOps: seq<AliceOp>, aliceAdtr: U64 -> AdtrEpochInfo,
      bobUid: U64, bobOps: seq<Op>, n: nat, r: GetReply, bobAdtr: U64 -> AdtrEpochInfo)
    requires |updates| < U64_BOUND && |aliceOps| < U64_BOUND - 1 && n < |bobOps| < U64_BOUND - 1
    // Alice's calls, and Bob's Get at step n, return no error
    requires AliceRun(c, k, aliceUid, aliceOps).Some?
    requires bobOps[n] == GetOp(aliceUid, Some(r))
    requires AfterGet(c, k, Run(c, k, bobUid, bobOps[..n]).st, aliceUid, Some(r)).1.NoErr?
    // no signature that the audits accept under the auditor's key is a forgery
    requires NoForgery(c, adtrPk, SignedDigs(Auditor.Digs(Auditor.Run(c, adtrSk, updates))),
                       AuditSigs(AliceRun(c, k, aliceUid, aliceOps).value.cli, aliceAdtr)
                       + AuditSigs(Run(c, k, bobUid, bobOps).st, bobAdtr))
    // the audits return no error
    requires AuditOk(c, k, AliceRun(c, k, aliceUid, aliceOps).value.cli, adtrPk, aliceAdtr)
    requires AuditOk(c, k, Run(c, k, bobUid, bobOps).st, adtrPk, bobAdtr)
    // Bob's epoch is at most the one that Alice's last call returned
    requires aliceOps != [] && r.dig.epoch <= OpEpoch(aliceOps[|aliceOps| - 1])
    // no collisions in the run
    requires HashedMaps(c.hash, Auditor.Run(c, adtrSk, updates).maps, q)
    requires HashedRun(c, k, aliceUid, aliceOps, q) && HashedGet(c, k, aliceUid, r, q)
    requires CollisionFree(c.hash, q)
    ensures r.dig.epoch < |AliceRun(c, k, aliceUid, aliceOps).value.hist|
    ensures var entry := AliceRun(c, k, aliceUid, aliceOps).value.hist[r.dig.epoch];
            entry.isReg == r.isReg && (entry.isReg ==> entry.pk == r.latest.pkOpen.val)
  {
    hide GetReplyOk, HashedGet, HashedRun, PutsHold, AnswerHolds, CommitOpenEncode, SigDigOk;
    var adtr, alice := Auditor.Run(c, adtrSk, updates), AliceRun(c, k, aliceUid, aliceOps).value;
    HistoryReaches(c, k, aliceUid, aliceOps);
    Auditor.RunInv(c, adtrSk, updates);
    AliceHistory(c, k, aliceUid, aliceOps);
    AuditedTruth(c, k, alice.cli, adtrSk, adtrPk, adtr, aliceAdtr);
    AliceTruth(c, k, aliceUid, aliceOps, adtr.maps, q);
    BobTruth(c, k, bobUid, bobOps, n, aliceUid, r, adtrSk, adtrPk, adtr, bobAdtr);
    var before := Run(c, k, bobUid, bobOps[..n]).st;
    AnswerTruth(c, k, before, aliceUid, adtr.maps[r.dig.epoch], r, q);
    HashedGetOpening(c, k, aliceUid, r, q);
    assert alice.cli.nextEpoch <= |adtr.maps| by {
      PutsReach(c, k, aliceUid, adtr.maps, PutsOf(aliceOps), alice.cli.nextEpoch, q);
    }
    AnswerIsHistory(c, k, aliceUid, adtr.maps, PutsOf(aliceOps), alice.cli.nextEpoch, r, q);
  }

  lemma HashedGetOpening(c: Crypto, k: CliKeys, uid: U64, r: GetReply, q: set<Bytes>)
    requires HashedGet(c, k, uid, r, q)
    ensures r.isReg ==> CommitOpenEncode([], r.latest.pkOpen) in q
  {
  }

  /** The digest of Bob's Get is the auditor's digest of that epoch. */
  lemma BobTruth(c: Crypto, k: CliKeys, bobUid: U64, bobOps: seq<Op>, n: nat, uid: U64, r: GetReply,
                 adtrSk: Bytes, adtrPk: Bytes, adtr: Auditor.AdtrState, bobAdtr: U64 -> AdtrEpochInfo)
    requires n < |bobOps| < U64_BOUND - 1 && bobOps[n] == GetOp(uid, Some(r))
    requires AfterGet(c, k, Run(c, k, bobUid, bobOps[..n]).st, uid, Some(r)).1.NoErr?
    requires AuditOk(c, k, Run(c, k, bobUid, bobOps).st, adtrPk, bobAdtr)
    requires Auditor.Inv(c, adtrSk, adtr)
    requires NoForgery(c, adtrPk, SignedDigs(Auditor.Digs(adtr)), AuditSigs(Run(c, k, bobUid, bobOps).st, bobAdtr))
    ensures r.dig.epoch < |adtr.maps| && r.dig.dig == MapDigest(c.hash, adtr.maps[r.dig.epoch])
    ensures GetReplyOk(c, k, Run(c, k, bobUid, bobOps[..n]).st, uid, r)
  {
    hide GetReplyOk, SigDigOk;
    var end := Run(c, k, bobUid, bobOps).st;
    RunInv(c, k, bobUid, bobOps);
    AuditedTruth(c, k, end, adtrSk, adtrPk, adtr, bobAdtr);
    RunExtends(c, k, bobUid, bobOps, n + 1);
    assert bobOps[..n + 1][..n] == bobOps[..n];
    assert r.dig.epoch in Run(c, k, bobUid, bobOps[..n + 1]).st.seenDigs;
  }
}
