/** kt/client.go: a client that checks every reply of an arbitrary server. */
module KtClient {
  import opened Bytes
  import opened MerkleTrie
  import opened MerkleProofs
  import opened KtTypes
  import opened Evidence

  datatype CliKeys = CliKeys(servSigPk: Bytes, servVrfPk: Bytes)

  datatype CliState = CliState(uid: U64, nextVer: U64, seenDigs: map<U64, SigDig>, nextEpoch: U64)

  /** ClientErr: an error may carry evidence. */
  datatype CliErr = NoErr | Failed(evid: Option<Evid>)

  /** A slice of proofs; its length leaves room for the version after it. */
  type Hist = s: seq<MembHide> | |s| + 1 < U64_BOUND

  datatype PutReply = PutReply(dig: SigDig, latest: Memb, bound: NonMemb)
  datatype GetReply = GetReply(dig: SigDig, hist: Hist, isReg: bool, latest: Memb, bound: NonMemb)
  datatype SelfMonReply = SelfMonReply(dig: SigDig, bound: NonMemb)

  // ---- checks of single messages

  function CheckDig(c: Crypto, servSigPk: Bytes, seenDigs: map<U64, SigDig>, dig: SigDig): CliErr {
    if !SigDigOk(c, dig, servSigPk) then Failed(None)
    else if dig.epoch + 1 >= U64_BOUND then Failed(None)
    else if dig.epoch in seenDigs && seenDigs[dig.epoch].dig != dig.dig then
      Failed(Some(Evid(dig, seenDigs[dig.epoch])))
    else NoErr
  }

  /** The label that a VRF proof establishes. */
  function CheckLabel(c: Crypto, servVrfPk: Bytes, uid: U64, ver: U64, proof: Bytes): Option<Digest> {
    if c.vrfOk(servVrfPk, MapLabelPreEncode([], MapLabelPre(uid, ver)), proof)
    then Some(MapLabel(c, servVrfPk, uid, ver))
    else None
  }

  predicate LabelAccepts(c: Crypto, lbl: Option<Digest>, inTree: bool, val: Slice, proof: Bytes, dig: Bytes) {
    lbl.Some? && Accepts(c.hash, inTree, lbl.value, val, proof, dig)
  }

  /** checkMemb returns no error; likewise for the next three. */
  predicate MembOk(c: Crypto, servVrfPk: Bytes, uid: U64, ver: U64, dig: Bytes, memb: Memb) {
    LabelAccepts(c, CheckLabel(c, servVrfPk, uid, ver, memb.labelProof),
                 true, CompMapVal(c, memb.epochAdded, memb.pkOpen), memb.merkleProof, dig)
  }

  predicate MembHideOk(c: Crypto, servVrfPk: Bytes, uid: U64, ver: U64, dig: Bytes, memb: MembHide) {
    LabelAccepts(c, CheckLabel(c, servVrfPk, uid, ver, memb.labelProof), true, memb.mapVal, memb.merkleProof, dig)
  }

  predicate NonMembOk(c: Crypto, servVrfPk: Bytes, uid: U64, ver: U64, dig: Bytes, nonMemb: NonMemb) {
    LabelAccepts(c, CheckLabel(c, servVrfPk, uid, ver, nonMemb.labelProof), false, [], nonMemb.merkleProof, dig)
  }

  predicate HistOk(c: Crypto, servVrfPk: Bytes, uid: U64, dig: Bytes, membs: Hist) {
    forall ver: nat | ver < |membs| :: MembHideOk(c, servVrfPk, uid, ver, dig, membs[ver])
  }

  function AuditEpoch(c: Crypto, seenDig: SigDig, servSigPk: Bytes, adtrPk: Bytes, info: AdtrEpochInfo): CliErr {
    var servDig := SigDig(seenDig.epoch, info.dig, info.servSig);
    var adtrDig := SigDig(seenDig.epoch, info.dig, info.adtrSig);
    if !SigDigOk(c, servDig, servSigPk) then Failed(None)
    else if !SigDigOk(c, adtrDig, adtrPk) then Failed(None)
    else if info.dig != seenDig.dig then Failed(Some(Evid(servDig, seenDig)))
    else NoErr
  }

  // ---- the calls, for an arbitrary reply (none if the call itself failed)

  predicate PutReplyOk(c: Crypto, k: CliKeys, st: CliState, pk: Slice, r: PutReply)
    requires st.nextVer + 1 < U64_BOUND
  {
    && r.dig.epoch >= st.nextEpoch
    && MembOk(c, k.servVrfPk, st.uid, st.nextVer, r.dig.dig, r.latest)
    && r.dig.epoch == r.latest.epochAdded
    && pk == r.latest.pkOpen.val
    && NonMembOk(c, k.servVrfPk, st.uid, st.nextVer + 1, r.dig.dig, r.bound)
  }

  predicate GetReplyOk(c: Crypto, k: CliKeys, st: CliState, uid: U64, r: GetReply) {
    && r.dig.epoch + 1 >= st.nextEpoch
    && HistOk(c, k.servVrfPk, uid, r.dig.dig, r.hist)
    && (|r.hist| > 0 ==> r.isReg)
    && (r.isReg ==> MembOk(c, k.servVrfPk, uid, |r.hist|, r.dig.dig, r.latest))
    && NonMembOk(c, k.servVrfPk, uid, if r.isReg then |r.hist| + 1 else 0, r.dig.dig, r.bound)
  }

  predicate SelfMonReplyOk(c: Crypto, k: CliKeys, st: CliState, r: SelfMonReply) {
    r.dig.epoch + 1 >= st.nextEpoch && NonMembOk(c, k.servVrfPk, st.uid, st.nextVer, r.dig.dig, r.bound)
  }

  /** The digest is recorded for its epoch. */
  function Record(st: CliState, dig: SigDig): CliState
    requires dig.epoch + 1 < U64_BOUND
  {
    st.(seenDigs := st.seenDigs[dig.epoch := dig], nextEpoch := dig.epoch + 1)
  }

  function AfterPut(c: Crypto, k: CliKeys, st: CliState, pk: Slice, reply: Option<PutReply>): (CliState, CliErr)
    requires st.nextVer + 1 < U64_BOUND
  {
    match reply
    case None => (st, Failed(None))
    case Some(r) =>
      var err1 := CheckDig(c, k.servSigPk, st.seenDigs, r.dig);
      if err1.Failed? then (st, err1)
      else if !PutReplyOk(c, k, st, pk, r) then (st, Failed(None))
      else (Record(st, r.dig).(nextVer := st.nextVer + 1), NoErr)
  }

  function AfterGet(c: Crypto, k: CliKeys, st: CliState, uid: U64, reply: Option<GetReply>): (CliState, CliErr) {
    match reply
    case None => (st, Failed(None))
    case Some(r) =>
      var err1 := CheckDig(c, k.servSigPk, st.seenDigs, r.dig);
      if err1.Failed? then (st, err1)
      else if !GetReplyOk(c, k, st, uid, r) then (st, Failed(None))
      else (Record(st, r.dig), NoErr)
  }

  function AfterSelfMon(c: Crypto, k: CliKeys, st: CliState, reply: Option<SelfMonReply>): (CliState, CliErr) {
    match reply
    case None => (st, Failed(None))
    case Some(r) =>
      var err1 := CheckDig(c, k.servSigPk, st.seenDigs, r.dig);
      if err1.Failed? then (st, err1)
      else if !SelfMonReplyOk(c, k, st, r) then (st, Failed(None))
      else (Record(st, r.dig), NoErr)
  }

  function Init(uid: U64): CliState {
    CliState(uid, 0, map[], 0)
  }

  // ---- what every run keeps, whatever the server answers

  datatype Op =
    | PutOp(pk: Slice, putReply: Option<PutReply>)
    | GetOp(uid: U64, getReply: Option<GetReply>)
    | SelfMonOp(selfMonReply: Option<SelfMonReply>)

  function Step(c: Crypto, k: CliKeys, st: CliState, op: Op): (CliState, CliErr)
    requires st.nextVer + 1 < U64_BOUND
  {
    match op
    case PutOp(pk, reply) => AfterPut(c, k, st, pk, reply)
    case GetOp(uid, reply) => AfterGet(c, k, st, uid, reply)
    case SelfMonOp(reply) => AfterSelfMon(c, k, st, reply)
  }

  /** Every recorded digest is keyed by its own epoch, signed by the server, and below nextEpoch. */
  ghost predicate Inv(c: Crypto, k: CliKeys, st: CliState) {
    forall e | e in st.seenDigs ::
      st.seenDigs[e].epoch == e < st.nextEpoch && SigDigOk(c, st.seenDigs[e], k.servSigPk)
  }

  /** No recorded digest is lost or replaced by a different one, and no counter falls. */
  ghost predicate Extends(st: CliState, st': CliState) {
    && st'.uid == st.uid && st'.nextEpoch >= st.nextEpoch && st'.nextVer >= st.nextVer
    && forall e | e in st.seenDigs :: e in st'.seenDigs && st'.seenDigs[e].dig == st.seenDigs[e].dig
  }

  lemma RecordKeeps(c: Crypto, k: CliKeys, st: CliState, dig: SigDig)
    requires Inv(c, k, st) && CheckDig(c, k.servSigPk, st.seenDigs, dig).NoErr? && dig.epoch + 1 >= st.nextEpoch
    ensures Inv(c, k, Record(st, dig)) && Extends(st, Record(st, dig))
  {
  }

  lemma StepKeeps(c: Crypto, k: CliKeys, st: CliState, op: Op)
    requires Inv(c, k, st) && st.nextVer + 1 < U64_BOUND
    ensures var (st', err) := Step(c, k, st, op);
            Inv(c, k, st') && Extends(st, st') && (err.Failed? ==> st' == st)
  {
    if Step(c, k, st, op).1.NoErr? {
      var dig := match op
        case PutOp(_, reply) => reply.value.dig
        case GetOp(_, reply) => reply.value.dig
        case SelfMonOp(reply) => reply.value.dig;
      RecordKeeps(c, k, st, dig);
    }
  }

  /** A successful Put is at an epoch not below any bound seen before, and takes one version. */
  lemma PutAdvances(c: Crypto, k: CliKeys, st: CliState, pk: Slice, r: PutReply)
    requires st.nextVer + 1 < U64_BOUND && AfterPut(c, k, st, pk, Some(r)).1.NoErr?
    ensures var st' := AfterPut(c, k, st, pk, Some(r)).0;
            st.nextEpoch <= r.dig.epoch < st'.nextEpoch && st'.nextVer == st.nextVer + 1
  {
  }

  /** Evidence that a client returns always checks out. */
  lemma StepEvidenceValid(c: Crypto, k: CliKeys, st: CliState, op: Op)
    requires Inv(c, k, st) && st.nextVer + 1 < U64_BOUND
    requires Step(c, k, st, op).1.Failed? && Step(c, k, st, op).1.evid.Some?
    ensures EvidOk(c, Step(c, k, st, op).1.evid.value, k.servSigPk)
  {
  }

  lemma AuditEvidenceValid(c: Crypto, k: CliKeys, st: CliState, e: U64, adtrPk: Bytes, info: AdtrEpochInfo)
    requires Inv(c, k, st) && e in st.seenDigs
    requires var err := AuditEpoch(c, st.seenDigs[e], k.servSigPk, adtrPk, info); err.Failed? && err.evid.Some?
    ensures EvidOk(c, AuditEpoch(c, st.seenDigs[e], k.servSigPk, adtrPk, info).evid.value, k.servSigPk)
  {
  }

  // ---- what evidence there is

  ghost predicate HasEvid(err: CliErr) {
    err.Failed? && err.evid.Some?
  }

  /** A signed digest is accepted, or fails without evidence, or is one of a fork with the recorded digest of
      its epoch; exactly in the last case the two are returned as evidence. */
  lemma DigEvidenceIff(c: Crypto, servSigPk: Bytes, seenDigs: map<U64, SigDig>, dig: SigDig)
    ensures var err := CheckDig(c, servSigPk, seenDigs, dig);
            var signed := SigDigOk(c, dig, servSigPk) && dig.epoch < U64_BOUND - 1;
            var forked := dig.epoch in seenDigs && dig.dig != seenDigs[dig.epoch].dig;
            && (HasEvid(err) <==> signed && forked)
            && (HasEvid(err) ==> err.evid.value.sigDig0 == dig && err.evid.value.sigDig1 == seenDigs[dig.epoch])
            && (err.NoErr? <==> signed && !forked)
  {
  }

  /** Any two signed digests of one epoch that differ are evidence. */
  lemma ForkIsEvidence(c: Crypto, servPk: Bytes, a: SigDig, b: SigDig)
    requires SigDigOk(c, a, servPk) && SigDigOk(c, b, servPk) && a.epoch == b.epoch && a.dig != b.dig
    ensures EvidOk(c, Evid(a, b), servPk)
  {
  }

  /** The signed digest of a reply, if there is a reply. */
  function DigOf(op: Op): Option<SigDig> {
    match op
    case PutOp(_, reply) => (match reply case None => None case Some(r) => Some(r.dig))
    case GetOp(_, reply) => (match reply case None => None case Some(r) => Some(r.dig))
    case SelfMonOp(reply) => (match reply case None => None case Some(r) => Some(r.dig))
  }

  lemma {:induction false} RunErrAt(c: Crypto, k: CliKeys, uid: U64, ops: seq<Op>, i: nat)
    requires i < |ops| < U64_BOUND - 1
    ensures |Run(c, k, uid, ops).errs| == |ops|
    ensures Run(c, k, uid, ops).errs[i] == Step(c, k, Run(c, k, uid, ops[..i]).st, ops[i]).1
    ensures Run(c, k, uid, ops[..i + 1]).st == Step(c, k, Run(c, k, uid, ops[..i]).st, ops[i]).0
  {
    hide Step;
    var n := |ops| - 1;
    RunErrs(c, k, uid, ops[..n]);
    assert ops[..i + 1][..i] == ops[..i];
    if i < n {
      assert ops[..n][..i] == ops[..i] && ops[..n][..i + 1] == ops[..i + 1];
      RunErrAt(c, k, uid, ops[..n], i);
    } else {
      assert ops[..i + 1] == ops;
    }
  }

  lemma {:induction false} RunErrs(c: Crypto, k: CliKeys, uid: U64, ops: seq<Op>)
    requires |ops| < U64_BOUND - 1
    ensures |Run(c, k, uid, ops).errs| == |ops|
  {
    hide Step;
    if ops != [] {
      RunErrs(c, k, uid, ops[..|ops| - 1]);
    }
  }

  lemma StepRecords(c: Crypto, k: CliKeys, st: CliState, op: Op)
    requires st.nextVer + 1 < U64_BOUND && Step(c, k, st, op).1.NoErr?
    ensures DigOf(op).Some? && var dig := DigOf(op).value;
            dig.epoch in Step(c, k, st, op).0.seenDigs && Step(c, k, st, op).0.seenDigs[dig.epoch] == dig
  {
    hide CheckDig, PutReplyOk, GetReplyOk, SelfMonReplyOk;
  }

  lemma StepForkEvidence(c: Crypto, k: CliKeys, st: CliState, op: Op)
    requires Inv(c, k, st) && st.nextVer + 1 < U64_BOUND && DigOf(op).Some?
    requires var dig := DigOf(op).value;
             && SigDigOk(c, dig, k.servSigPk) && dig.epoch < U64_BOUND - 1
             && dig.epoch in st.seenDigs && dig.dig != st.seenDigs[dig.epoch].dig
    ensures var err := Step(c, k, st, op).1;
            && HasEvid(err) && EvidOk(c, err.evid.value, k.servSigPk)
            && err.evid.value == Evid(DigOf(op).value, st.seenDigs[DigOf(op).value.epoch])
  {
    hide CheckDig, PutReplyOk, GetReplyOk, SelfMonReplyOk;
    DigEvidenceIff(c, k.servSigPk, st.seenDigs, DigOf(op).value);
  }

  /** Equivocation leaves proof: in any run against any server, if a call succeeds with one digest, and a
      later reply, to whatever call, has a validly signed different digest of the same epoch, then the
      later call returns evidence, with the later digest, that checks out. */
  lemma ForkGivesEvidence(c: Crypto, k: CliKeys, uid: U64, ops: seq<Op>, i: nat, j: nat)
    requires i < j < |ops| < U64_BOUND - 1 && |Run(c, k, uid, ops).errs| == |ops|
    requires Run(c, k, uid, ops).errs[i].NoErr? && DigOf(ops[i]).Some? && DigOf(ops[j]).Some?
    requires var d, d' := DigOf(ops[i]).value, DigOf(ops[j]).value;
             d'.epoch == d.epoch && d'.dig != d.dig && SigDigOk(c, d', k.servSigPk)
    ensures var err := Run(c, k, uid, ops).errs[j];
            && HasEvid(err) && EvidOk(c, err.evid.value, k.servSigPk)
            && err.evid.value.sigDig0 == DigOf(ops[j]).value && err.evid.value.sigDig1.dig == DigOf(ops[i]).value.dig
  {
    hide Step, Run, SigDigOk, EvidOk, HasEvid;
    var st := Run(c, k, uid, ops[..j]).st;
    RunErrAt(c, k, uid, ops, i);
    RunErrAt(c, k, uid, ops, j);
    StepRecords(c, k, Run(c, k, uid, ops[..i]).st, ops[i]);
    assert ops[..j][..i + 1] == ops[..i + 1];
    RunExtends(c, k, uid, ops[..j], i + 1);
    RunInv(c, k, uid, ops[..j]);
    StepForkEvidence(c, k, st, ops[j]);
  }

  /** An audit of one epoch: no error if both signatures are accepted and the digests agree, evidence if
      they differ, else an error without evidence. */
  lemma AuditEvidenceIff(c: Crypto, seenDig: SigDig, servSigPk: Bytes, adtrPk: Bytes, info: AdtrEpochInfo)
    ensures var err := AuditEpoch(c, seenDig, servSigPk, adtrPk, info);
            var signed := && SigDigOk(c, SigDig(seenDig.epoch, info.dig, info.servSig), servSigPk)
                          && SigDigOk(c, SigDig(seenDig.epoch, info.dig, info.adtrSig), adtrPk);
            && (err.NoErr? <==> signed && info.dig == seenDig.dig)
            && (HasEvid(err) <==> signed && info.dig != seenDig.dig)
            && (HasEvid(err) ==> err.evid.value == Evid(SigDig(seenDig.epoch, info.dig, info.servSig), seenDig))
  {
  }

  // ---- evidence of an audit, for every order of the epochs

  /** The error of one recorded epoch. */
  function EpochErr(c: Crypto, k: CliKeys, st: CliState, adtrPk: Bytes, adtr: U64 -> AdtrEpochInfo, e: U64): CliErr
    requires e in st.seenDigs
  {
    AuditEpoch(c, st.seenDigs[e], k.servSigPk, adtrPk, adtr(st.seenDigs[e].epoch))
  }

  /** What Audit returns when it ranges over the epochs in this order: a later error replaces an
      earlier one. */
  function AuditIn(c: Crypto, k: CliKeys, st: CliState, adtrPk: Bytes, adtr: U64 -> AdtrEpochInfo, order: seq<U64>)
    : CliErr
    requires forall e | e in order :: e in st.seenDigs
  {
    if order == [] then NoErr
    else
      var err1 := EpochErr(c, k, st, adtrPk, adtr, order[|order| - 1]);
      if err1.Failed? then err1 else AuditIn(c, k, st, adtrPk, adtr, order[..|order| - 1])
  }

  /** An order in which a Go program may range over a map with these keys. */
  ghost predicate RangesOver(order: seq<U64>, keys: set<U64>) {
    (forall e :: e in order <==> e in keys) && forall i: nat, j: nat | i < j < |order| :: order[i] != order[j]
  }

  lemma {:induction false} OrderExists(keys: set<U64>) returns (order: seq<U64>)
    ensures RangesOver(order, keys)
  {
    if keys == {} {
      order := [];
    } else {
      var e :| e in keys;
      order := OrderExists(keys - {e});
      order := order + [e];
    }
  }

  lemma {:induction false} AuditInFails(c: Crypto, k: CliKeys, st: CliState, adtrPk: Bytes, adtr: U64 -> AdtrEpochInfo,
                                        order: seq<U64>)
    requires forall e | e in order :: e in st.seenDigs
    ensures var err := AuditIn(c, k, st, adtrPk, adtr, order);
            && (err.Failed? <==> exists e :: e in order && EpochErr(c, k, st, adtrPk, adtr, e).Failed?)
            && (err.Failed? ==> exists e :: e in order && err == EpochErr(c, k, st, adtrPk, adtr, e))
  {
    hide EpochErr;
    if order != [] {
      var n := |order| - 1;
      AuditInFails(c, k, st, adtrPk, adtr, order[..n]);
      assert order == order[..n] + [order[n]];
      assert order[n] in order;
    }
  }

  /** An audit error may lose evidence, since a later epoch's error without evidence replaces it. In
      every order of the epochs the audit returns evidence if and only if some epoch has evidence and
      no epoch fails without. */
  lemma AuditAlwaysEvidenceIff(c: Crypto, k: CliKeys, st: CliState, adtrPk: Bytes, adtr: U64 -> AdtrEpochInfo)
    ensures (forall order | RangesOver(order, st.seenDigs.Keys) ::
               HasEvid(AuditIn(c, k, st, adtrPk, adtr, order)))
            <==> && (exists e :: e in st.seenDigs && HasEvid(EpochErr(c, k, st, adtrPk, adtr, e)))
                 && (forall e | e in st.seenDigs && EpochErr(c, k, st, adtrPk, adtr, e).Failed? ::
                       HasEvid(EpochErr(c, k, st, adtrPk, adtr, e)))
  {
    hide EpochErr, AuditIn;
    forall order | RangesOver(order, st.seenDigs.Keys)
      ensures var err := AuditIn(c, k, st, adtrPk, adtr, order);
              && (err.Failed? <==> exists e :: e in order && EpochErr(c, k, st, adtrPk, adtr, e).Failed?)
              && (err.Failed? ==> exists e :: e in order && err == EpochErr(c, k, st, adtrPk, adtr, e))
    {
      AuditInFails(c, k, st, adtrPk, adtr, order);
    }
    if forall order | RangesOver(order, st.seenDigs.Keys) :: HasEvid(AuditIn(c, k, st, adtrPk, adtr, order)) {
      var order := OrderExists(st.seenDigs.Keys);
      assert HasEvid(AuditIn(c, k, st, adtrPk, adtr, order));
      forall e | e in st.seenDigs && EpochErr(c, k, st, adtrPk, adtr, e).Failed?
        ensures HasEvid(EpochErr(c, k, st, adtrPk, adtr, e))
      {
        var last := OrderEndingIn(c, k, st, adtrPk, adtr, e);
        assert HasEvid(AuditIn(c, k, st, adtrPk, adtr, last));
      }
    }
  }

  lemma OrderEndingIn(c: Crypto, k: CliKeys, st: CliState, adtrPk: Bytes, adtr: U64 -> AdtrEpochInfo, e: U64)
    returns (order: seq<U64>)
    requires e in st.seenDigs && EpochErr(c, k, st, adtrPk, adtr, e).Failed?
    ensures RangesOver(order, st.seenDigs.Keys)
    ensures AuditIn(c, k, st, adtrPk, adtr, order) == EpochErr(c, k, st, adtrPk, adtr, e)
  {
    hide EpochErr;
    var init := OrderExists(st.seenDigs.Keys - {e});
    order := init + [e];
    assert forall x :: x in order <==> x in init || x == e;
  }

  /** The state after a run, and the errors it returned. */
  datatype RunResult = RunResult(st: CliState, errs: seq<CliErr>)

  /** SumAssumeNoOverflow ends a run in which the version counter would overflow. */
  ghost function Run(c: Crypto, k: CliKeys, uid: U64, ops: seq<Op>): (r: RunResult)
    requires |ops| < U64_BOUND - 1
    ensures r.st.nextVer <= |ops|
  {
    if ops == [] then RunResult(Init(uid), [])
    else
      var before := Run(c, k, uid, ops[..|ops| - 1]);
      var (st, err) := Step(c, k, before.st, ops[|ops| - 1]);
      RunResult(st, before.errs + [err])
  }

  /** Over any run against any server: the recorded digests are sound, and all evidence is valid. */
  lemma {:induction false} RunInv(c: Crypto, k: CliKeys, uid: U64, ops: seq<Op>)
    requires |ops| < U64_BOUND - 1
    ensures Inv(c, k, Run(c, k, uid, ops).st)
    ensures forall err | err in Run(c, k, uid, ops).errs && err.Failed? && err.evid.Some? ::
              EvidOk(c, err.evid.value, k.servSigPk)
  {
    if ops != [] {
      var init, op := ops[..|ops| - 1], ops[|ops| - 1];
      RunInv(c, k, uid, init);
      var before := Run(c, k, uid, init);
      StepKeeps(c, k, before.st, op);
      var (_, err) := Step(c, k, before.st, op);
      if err.Failed? && err.evid.Some? {
        StepEvidenceValid(c, k, before.st, op);
      }
    }
  }

  /** Over any run, no recorded digest is ever replaced by a different one. */
  lemma {:induction false} RunExtends(c: Crypto, k: CliKeys, uid: U64, ops: seq<Op>, n: nat)
    requires |ops| < U64_BOUND - 1 && n <= |ops|
    ensures Extends(Run(c, k, uid, ops[..n]).st, Run(c, k, uid, ops).st)
  {
    if n == |ops| {
      assert ops[..n] == ops;
    } else {
      var init := ops[..|ops| - 1];
      assert init[..n] == ops[..n];
      RunExtends(c, k, uid, init, n);
      RunInv(c, k, uid, init);
      StepKeeps(c, k, Run(c, k, uid, init).st, ops[|ops| - 1]);
    }
  }

  /** Puts among the operations that succeeded. */
  ghost function PutCount(ops: seq<Op>, errs: seq<CliErr>): nat
    requires |ops| == |errs|
  {
    if ops == [] then 0
    else PutCount(ops[..|ops| - 1], errs[..|ops| - 1])
         + if ops[|ops| - 1].PutOp? && errs[|ops| - 1].NoErr? then 1 else 0
  }

  /** nextVer counts the successful puts. */
  lemma {:induction false} NextVerCountsPuts(c: Crypto, k: CliKeys, uid: U64, ops: seq<Op>)
    requires |ops| < U64_BOUND - 1
    ensures |Run(c, k, uid, ops).errs| == |ops|
    ensures Run(c, k, uid, ops).st.nextVer == PutCount(ops, Run(c, k, uid, ops).errs)
  {
    hide Step;
    if ops != [] {
      var init, op := ops[..|ops| - 1], ops[|ops| - 1];
      NextVerCountsPuts(c, k, uid, init);
      var before, after := Run(c, k, uid, init), Run(c, k, uid, ops);
      assert after.errs[..|ops| - 1] == before.errs;
      StepCounts(c, k, before.st, op);
    }
  }

  lemma StepCounts(c: Crypto, k: CliKeys, st: CliState, op: Op)
    requires st.nextVer + 1 < U64_BOUND
    ensures var (st', err) := Step(c, k, st, op);
            st'.nextVer == st.nextVer + if op.PutOp? && err.NoErr? then 1 else 0
  {
    hide CheckDig, PutReplyOk, GetReplyOk, SelfMonReplyOk;
  }

  // ---- the client object

  class Client {
    const c: Crypto
    const keys: CliKeys
    const uid: U64
    var nextVer: U64
    var seenDigs: map<U64, SigDig>
    var nextEpoch: U64

    ghost function State(): CliState
      reads this
    {
      CliState(uid, nextVer, seenDigs, nextEpoch)
    }

    constructor (c: Crypto, uid: U64, keys: CliKeys)
      ensures State() == Init(uid) && this.c == c && this.keys == keys
    {
      this.c, this.uid, this.keys := c, uid, keys;
      nextVer, seenDigs, nextEpoch := 0, map[], 0;
    }

    /** The epoch at which the key was put, or an error. */
    method Put(pk: Slice, reply: Option<PutReply>) returns (epoch: U64, err: CliErr)
      requires nextVer + 1 < U64_BOUND
      modifies this
      ensures (State(), err) == AfterPut(c, keys, old(State()), pk, reply)
      ensures epoch == if err.NoErr? then reply.value.dig.epoch else 0
    {
      hide Accepts, CompMapVal, MapLabelPreEncode;
      if reply.None? {
        return 0, Failed(None);
      }
      var PutReply(dig, latest, bound) := reply.value;
      var err1 := CheckDig(c, keys.servSigPk, seenDigs, dig);
      if err1.Failed? {
        return 0, err1;
      }
      if dig.epoch < nextEpoch {
        return 0, Failed(None);
      }
      if !MembOk(c, keys.servVrfPk, uid, nextVer, dig.dig, latest) {
        return 0, Failed(None);
      }
      if dig.epoch != latest.epochAdded {
        return 0, Failed(None);
      }
      if pk != latest.pkOpen.val {
        return 0, Failed(None);
      }
      if !NonMembOk(c, keys.servVrfPk, uid, nextVer + 1, dig.dig, bound) {
        return 0, Failed(None);
      }
      seenDigs := seenDigs[dig.epoch := dig];
      nextEpoch := dig.epoch + 1;
      nextVer := nextVer + 1;
      return dig.epoch, NoErr;
    }

    /** checkHist: goes over all proofs and returns the error flag. */
    method CheckHist(uid: U64, dig: Bytes, membs: Hist) returns (err0: bool)
      ensures err0 <==> !HistOk(c, keys.servVrfPk, uid, dig, membs)
    {
      err0 := false;
      for ver := 0 to |membs|
        invariant err0 <==> exists v: nat | v < ver :: !MembHideOk(c, keys.servVrfPk, uid, v, dig, membs[v])
      {
        if !MembHideOk(c, keys.servVrfPk, uid, ver, dig, membs[ver]) {
          err0 := true;
        }
      }
    }

    /** Whether the uid is registered, its key, and the epoch of the answer. */
    method Get(uid: U64, reply: Option<GetReply>) returns (isReg: bool, pk: Slice, epoch: U64, err: CliErr)
      modifies this
      ensures (State(), err) == AfterGet(c, keys, old(State()), uid, reply)
      ensures err.NoErr? ==>
                reply.Some? && var r := reply.value;
                isReg == r.isReg && pk == r.latest.pkOpen.val && epoch == r.dig.epoch
      ensures err.Failed? ==> !isReg && pk == [] && epoch == 0
    {
      hide Accepts, CompMapVal, MapLabelPreEncode;
      if reply.None? {
        return false, [], 0, Failed(None);
      }
      var GetReply(dig, hist, reg, latest, bound) := reply.value;
      var err1 := CheckDig(c, keys.servSigPk, seenDigs, dig);
      if err1.Failed? {
        return false, [], 0, err1;
      }
      if dig.epoch + 1 < nextEpoch {
        return false, [], 0, Failed(None);
      }
      var histErr := CheckHist(uid, dig.dig, hist);
      if histErr {
        return false, [], 0, Failed(None);
      }
      var numHistVers := |hist|;
      if numHistVers > 0 && !reg {
        return false, [], 0, Failed(None);
      }
      if reg && !MembOk(c, keys.servVrfPk, uid, numHistVers, dig.dig, latest) {
        return false, [], 0, Failed(None);
      }
      var boundVer := 0;
      if reg {
        boundVer := numHistVers + 1;
      }
      if !NonMembOk(c, keys.servVrfPk, uid, boundVer, dig.dig, bound) {
        return false, [], 0, Failed(None);
      }
      seenDigs := seenDigs[dig.epoch := dig];
      nextEpoch := dig.epoch + 1;
      return reg, latest.pkOpen.val, dig.epoch, NoErr;
    }

    /** The epoch through which the client's own key is as it put it. */
    method SelfMon(reply: Option<SelfMonReply>) returns (epoch: U64, err: CliErr)
      modifies this
      ensures (State(), err) == AfterSelfMon(c, keys, old(State()), reply)
      ensures epoch == if err.NoErr? then reply.value.dig.epoch else 0
    {
      hide Accepts, CompMapVal, MapLabelPreEncode;
      if reply.None? {
        return 0, Failed(None);
      }
      var SelfMonReply(dig, bound) := reply.value;
      var err1 := CheckDig(c, keys.servSigPk, seenDigs, dig);
      if err1.Failed? {
        return 0, err1;
      }
      if dig.epoch + 1 < nextEpoch {
        return 0, Failed(None);
      }
      if !NonMembOk(c, keys.servVrfPk, uid, nextVer, dig.dig, bound) {
        return 0, Failed(None);
      }
      seenDigs := seenDigs[dig.epoch := dig];
      nextEpoch := dig.epoch + 1;
      return dig.epoch, NoErr;
    }

    /** Audits every recorded digest, in an arbitrary order, against the answers adtr gives per
        epoch. An error is the error of one of the epochs. */
    method Audit(adtrPk: Bytes, adtr: U64 -> AdtrEpochInfo) returns (err0: CliErr)
      ensures err0.NoErr? <==> AuditOk(c, keys, State(), adtrPk, adtr)
      ensures err0.Failed? ==>
                exists e | e in seenDigs ::
                  err0 == AuditEpoch(c, seenDigs[e], keys.servSigPk, adtrPk, adtr(seenDigs[e].epoch))
      ensures exists order :: RangesOver(order, seenDigs.Keys) && err0 == AuditIn(c, keys, State(), adtrPk, adtr, order)
    {
      hide EpochErr, AuditIn, RangesOver, AuditOk, AuditEpoch;
      err0 := NoErr;
      var todo := seenDigs.Keys;
      ghost var order: seq<U64> := [];
      NoneRanged(c, keys, State(), adtrPk, adtr);
      while todo != {}
        invariant todo <= seenDigs.Keys && RangesOver(order, seenDigs.Keys - todo)
        invariant (forall e | e in order :: e in seenDigs) && err0 == AuditIn(c, keys, State(), adtrPk, adtr, order)
        decreases |todo|
      {
        var e :| e in todo;
        OneMoreRanged(c, keys, State(), adtrPk, adtr, order, seenDigs.Keys - todo, e);
        order := order + [e];
        var err1 := AuditEpoch(c, seenDigs[e], keys.servSigPk, adtrPk, adtr(seenDigs[e].epoch));
        if err1.Failed? {
          err0 := err1;
        }
        assert seenDigs.Keys - (todo - {e}) == seenDigs.Keys - todo + {e};
        todo := todo - {e};
      }
      assert seenDigs.Keys - todo == seenDigs.Keys;
      AllRanged(c, keys, State(), adtrPk, adtr, order);
    }
  }

  lemma NoneRanged(c: Crypto, k: CliKeys, st: CliState, adtrPk: Bytes, adtr: U64 -> AdtrEpochInfo)
    ensures RangesOver([], st.seenDigs.Keys - st.seenDigs.Keys) && AuditIn(c, k, st, adtrPk, adtr, []) == NoErr
  {
  }

  /** One turn of the loop in Audit. */
  lemma OneMoreRanged(c: Crypto, k: CliKeys, st: CliState, adtrPk: Bytes, adtr: U64 -> AdtrEpochInfo,
                      order: seq<U64>, keys: set<U64>, e: U64)
    requires RangesOver(order, keys) && keys <= st.seenDigs.Keys && e in st.seenDigs && e !in keys
    ensures RangesOver(order + [e], keys + {e}) && forall x | x in order + [e] :: x in st.seenDigs
    ensures AuditIn(c, k, st, adtrPk, adtr, order + [e])
            == var err1 := AuditEpoch(c, st.seenDigs[e], k.servSigPk, adtrPk, adtr(st.seenDigs[e].epoch));
               if err1.Failed? then err1 else AuditIn(c, k, st, adtrPk, adtr, order)
  {
    hide AuditEpoch;
    assert (order + [e])[..|order|] == order;
    assert forall x :: x in order + [e] <==> x in order || x == e;
  }

  lemma AllRanged(c: Crypto, k: CliKeys, st: CliState, adtrPk: Bytes, adtr: U64 -> AdtrEpochInfo, order: seq<U64>)
    requires RangesOver(order, st.seenDigs.Keys)
    ensures var err := AuditIn(c, k, st, adtrPk, adtr, order);
            && (err.NoErr? <==> AuditOk(c, k, st, adtrPk, adtr))
            && (err.Failed? ==>
                  exists e | e in st.seenDigs ::
                    err == AuditEpoch(c, st.seenDigs[e], k.servSigPk, adtrPk, adtr(st.seenDigs[e].epoch)))
  {
    hide AuditEpoch, AuditIn;
    AuditInFails(c, k, st, adtrPk, adtr, order);
  }

  /** Audit returns no error. */
  ghost predicate AuditOk(c: Crypto, k: CliKeys, st: CliState, adtrPk: Bytes, adtr: U64 -> AdtrEpochInfo) {
    forall e | e in st.seenDigs ::
      AuditEpoch(c, st.seenDigs[e], k.servSigPk, adtrPk, adtr(st.seenDigs[e].epoch)).NoErr?
  }
}
