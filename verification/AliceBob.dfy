/** testAliceBob of alicebob/alicebob.go in its security setting, with its assertions. */
module AliceBob {
  import opened Bytes
  import opened KtTypes
  import opened Evidence
  import opened KtClient
  import opened History
  import opened Security
  import opened MerkleTrie
  import Auditor = KtAuditor

  /** checkCliErr with a malicious server: any evidence checks out; whether there was no error. */
  method CheckCliErr(c: Crypto, servPk: Bytes, err: CliErr) returns (ok: bool)
    requires err.Failed? && err.evid.Some? ==> EvidOk(c, err.evid.value, servPk)
    ensures ok <==> err.NoErr?
  {
    if err.Failed? && err.evid.Some? {
      assert EvidOk(c, err.evid.value, servPk);
    }
    return err.NoErr?;
  }

  /** The assertion of checkCliErr holds after every call. */
  lemma ErrChecks(c: Crypto, k: CliKeys, st: CliState, op: Op)
    requires Inv(c, k, st) && st.nextVer + 1 < U64_BOUND
    ensures var (st', err) := Step(c, k, st, op);
            Inv(c, k, st') && (err.Failed? && err.evid.Some? ==> EvidOk(c, err.evid.value, k.servSigPk))
  {
    hide Inv, Step;
    StepKeeps(c, k, st, op);
    var err := Step(c, k, st, op).1;
    if err.Failed? && err.evid.Some? {
      StepEvidenceValid(c, k, st, op);
    }
  }

  /** One call of Alice, and the extension of her history. */
  method AliceCall(cli: Client, op: AliceOp, hist: seq<HistEntry>) returns (hist': seq<HistEntry>, ok: bool)
    requires cli.nextVer + 1 < U64_BOUND && |hist| == cli.nextEpoch && Inv(cli.c, cli.keys, cli.State())
    modifies cli
    ensures Inv(cli.c, cli.keys, cli.State())
    ensures ok <==> Step(cli.c, cli.keys, old(cli.State()), CliOp(op)).1.NoErr?
    ensures ok ==> |hist'| == cli.nextEpoch == OpEpoch(op) + 1
    ensures ok ==> Alice(cli.State(), hist') == AliceStep(cli.c, cli.keys, Alice(old(cli.State()), hist), op)
  {
    hide AfterPut, AfterSelfMon, Inv, EvidOk;
    ghost var a := Alice(cli.State(), hist);
    ErrChecks(cli.c, cli.keys, a.cli, CliOp(op));
    match op {
      case AlicePut(pk, reply) =>
        var epoch, err := cli.Put(pk, Some(reply));
        ok := CheckCliErr(cli.c, cli.keys.servSigPk, err);
        if !ok {
          return hist, false;
        }
        AliceEpochs(cli.c, cli.keys, a, op);
        hist' := ExtendHistLoop(hist, epoch);
        return hist' + [HistEntry(true, pk)], true;
      case AliceSelfMon(reply) =>
        var epoch, err := cli.SelfMon(Some(reply));
        ok := CheckCliErr(cli.c, cli.keys.servSigPk, err);
        if !ok {
          return hist, false;
        }
        AliceEpochs(cli.c, cli.keys, a, op);
        hist' := ExtendHistLoop(hist, epoch + 1);
        return hist', true;
    }
  }

  /** alice.run and her self-monitoring: one call after the other; gives up at the first error, as
      the source assumes there is none. */
  method RunAlice(cli: Client, ops: seq<AliceOp>) returns (hist: seq<HistEntry>, ok: bool)
    requires cli.State() == Init(cli.uid) && |ops| < U64_BOUND - 1
    modifies cli
    ensures ok <==> AliceRun(cli.c, cli.keys, cli.uid, ops).Some?
    ensures ok ==> AliceRun(cli.c, cli.keys, cli.uid, ops) == Some(Alice(cli.State(), hist))
  {
    hide Step, AliceStep, Inv;
    hist := [];
    EmptyHistory(cli.c, cli.keys, cli.uid);
    for i := 0 to |ops|
      invariant Inv(cli.c, cli.keys, cli.State())
      invariant AliceRun(cli.c, cli.keys, cli.uid, ops[..i]) == Some(Alice(cli.State(), hist))
    {
      assert ops[..i + 1][..i] == ops[..i];
      hist, ok := AliceCall(cli, ops[i], hist);
      if !ok {
        FailedStays(cli.c, cli.keys, cli.uid, ops, i + 1);
        return hist, false;
      }
    }
    assert ops[..|ops|] == ops;
    return hist, true;
  }

  lemma {:induction false} FailedStays(c: Crypto, k: CliKeys, uid: U64, ops: seq<AliceOp>, i: nat)
    requires i <= |ops| < U64_BOUND - 1 && AliceRun(c, k, uid, ops[..i]).None?
    ensures AliceRun(c, k, uid, ops).None?
  {
    if i == |ops| {
      assert ops[..i] == ops;
    } else {
      var init := ops[..|ops| - 1];
      assert init[..i] == ops[..i];
      FailedStays(c, k, uid, init, i);
    }
  }

  /** No signature that the two audits check is forged under the auditor's key. */
  ghost predicate HonestAuditor(c: Crypto, k: CliKeys, adtrSk: Bytes, adtrPk: Bytes, updates: seq<UpdateProof>,
                                alice: CliState, aliceAdtr: U64 -> AdtrEpochInfo,
                                bob: CliState, bobAdtr: U64 -> AdtrEpochInfo)
    requires |updates| < U64_BOUND
  {
    NoForgery(c, adtrPk, SignedDigs(Auditor.Digs(Auditor.Run(c, adtrSk, updates))),
              AuditSigs(alice, aliceAdtr) + AuditSigs(bob, bobAdtr))
  }

  /** Alice's puts, and her self-monitoring at the end. */
  function AllOps(pks: seq<AlicePutOp>, selfMonReply: SelfMonReply): seq<AliceOp> {
    pks + [AliceSelfMon(selfMonReply)]
  }

  type AlicePutOp = op: AliceOp | op.AlicePut? witness AlicePut([], ANY_REPLY)

  const ANY_REPLY: PutReply := PutReply(SigDig(0, [], []), Memb([], 0, CommitOpen([], []), []), NonMemb([], []))

  /** No call returns an error, and Bob's epoch is at most the self-monitored one. */
  ghost predicate AssumptionsHold(c: Crypto, k: CliKeys, adtrPk: Bytes, aliceUid: U64, bobUid: U64,
                                  puts: seq<AlicePutOp>, selfMonReply: SelfMonReply, bobReply: Option<GetReply>,
                                  aliceAdtr: U64 -> AdtrEpochInfo, bobAdtr: U64 -> AdtrEpochInfo)
    requires |puts| + 1 < U64_BOUND - 1
  {
    var alice := AliceRun(c, k, aliceUid, AllOps(puts, selfMonReply));
    var (bob, bobErr) := AfterGet(c, k, Init(bobUid), aliceUid, bobReply);
    && alice.Some? && bobErr.NoErr?
    && AuditOk(c, k, alice.value.cli, adtrPk, aliceAdtr) && AuditOk(c, k, bob, adtrPk, bobAdtr)
    && bobReply.Some? && bobReply.value.dig.epoch <= selfMonReply.dig.epoch
  }

  /** Under the assumptions, Bob's answer is what Alice's history has for his epoch. */
  lemma BobIsRight(
      c: Crypto, k: CliKeys, adtrPk: Bytes, aliceUid: U64, bobUid: U64,
      puts: seq<AlicePutOp>, selfMonReply: SelfMonReply, bobReply: Option<GetReply>,
      aliceAdtr: U64 -> AdtrEpochInfo, bobAdtr: U64 -> AdtrEpochInfo,
      adtrSk: Bytes, updates: seq<UpdateProof>, q: set<Bytes>)
    requires |updates| < U64_BOUND && |puts| + 1 < U64_BOUND - 1
    requires AssumptionsHold(c, k, adtrPk, aliceUid, bobUid, puts, selfMonReply, bobReply, aliceAdtr, bobAdtr)
    requires HonestAuditor(c, k, adtrSk, adtrPk, updates,
                           AliceRun(c, k, aliceUid, AllOps(puts, selfMonReply)).value.cli, aliceAdtr,
                           AfterGet(c, k, Init(bobUid), aliceUid, bobReply).0, bobAdtr)
    requires HashedMaps(c.hash, Auditor.Run(c, adtrSk, updates).maps, q)
    requires HashedRun(c, k, aliceUid, AllOps(puts, selfMonReply), q) && HashedGet(c, k, aliceUid, bobReply.value, q)
    requires CollisionFree(c.hash, q)
    ensures var hist, r := AliceRun(c, k, aliceUid, AllOps(puts, selfMonReply)).value.hist, bobReply.value;
            && r.dig.epoch < |hist| && hist[r.dig.epoch].isReg == r.isReg
            && (r.isReg ==> hist[r.dig.epoch].pk == r.latest.pkOpen.val)
  {
    hide AfterGet, HashedGet, HashedRun, HashedMaps, CollisionFree, NoForgery, AuditOk, AliceRun, Run, SignedDigs;
    var bobOps := [GetOp(aliceUid, bobReply)];
    BobsRun(c, k, bobUid, aliceUid, bobReply);
    BobGetsAlicesKey(c, k, q, adtrSk, adtrPk, updates, aliceUid, AllOps(puts, selfMonReply), aliceAdtr,
                     bobUid, bobOps, 0, bobReply.value, bobAdtr);
  }

  /** The result is false exactly when one of the source's assumptions fails; otherwise all of its assertions
      hold. The replies of the server and of the auditor are arbitrary arguments. */
  method TestSecurity(
      c: Crypto, k: CliKeys, adtrPk: Bytes, aliceUid: U64, bobUid: U64,
      puts: seq<AlicePutOp>, selfMonReply: SelfMonReply, bobReply: Option<GetReply>,
      aliceAdtr: U64 -> AdtrEpochInfo, bobAdtr: U64 -> AdtrEpochInfo,
      ghost adtrSk: Bytes, ghost updates: seq<UpdateProof>, ghost q: set<Bytes>)
    returns (checked: bool, aliceKey: HistEntry, isReg: bool, alicePk: Slice)
    requires |updates| < U64_BOUND && |puts| + 1 < U64_BOUND - 1
    requires var alice := AliceRun(c, k, aliceUid, AllOps(puts, selfMonReply));
             alice.Some? ==>
               HonestAuditor(c, k, adtrSk, adtrPk, updates, alice.value.cli, aliceAdtr,
                             AfterGet(c, k, Init(bobUid), aliceUid, bobReply).0, bobAdtr)
    requires HashedMaps(c.hash, Auditor.Run(c, adtrSk, updates).maps, q)
    requires HashedRun(c, k, aliceUid, AllOps(puts, selfMonReply), q)
    requires bobReply.Some? ==> HashedGet(c, k, aliceUid, bobReply.value, q)
    requires CollisionFree(c.hash, q)
    ensures checked
            <==> AssumptionsHold(c, k, adtrPk, aliceUid, bobUid, puts, selfMonReply, bobReply, aliceAdtr, bobAdtr)
    ensures checked ==> aliceKey.isReg == isReg && (aliceKey.isReg ==> aliceKey.pk == alicePk)
  {
    checked, aliceKey, isReg, alicePk := false, NO_ENTRY, false, [];
    hide AfterGet, HashedGet, HashedRun, HashedMaps, CollisionFree, NoForgery, AuditOk, AliceRun, Run, SignedDigs;
    hide Inv, EvidOk, HonestAuditor;
    var alice := new Client(c, aliceUid, k);
    var bob := new Client(c, bobUid, k);
    var ops := AllOps(puts, selfMonReply);

    var hist, ok := RunAlice(alice, ops);
    if !ok {
      return;
    }
    EmptyHistory(c, k, bobUid);
    ErrChecks(c, k, bob.State(), GetOp(aliceUid, bobReply));
    var epoch, err;
    isReg, alicePk, epoch, err := bob.Get(aliceUid, bobReply);
    ok := CheckCliErr(c, k.servSigPk, err);
    if !ok {
      return;
    }

    var err0 := alice.Audit(adtrPk, aliceAdtr);
    if err0.Failed? {
      return;
    }
    var err1 := bob.Audit(adtrPk, bobAdtr);
    if err1.Failed? {
      return;
    }

    // what Bob was told is what Alice has on record for that epoch
    var selfMonEp := selfMonReply.dig.epoch;
    if epoch > selfMonEp {
      return;
    }
    BobIsRight(c, k, adtrPk, aliceUid, bobUid, puts, selfMonReply, bobReply, aliceAdtr, bobAdtr, adtrSk, updates, q);
    aliceKey := hist[epoch];
    assert aliceKey.isReg == isReg;
    if aliceKey.isReg {
      assert aliceKey.pk == alicePk;
    }
    checked := true;
  }

  lemma BobsRun(c: Crypto, k: CliKeys, bobUid: U64, aliceUid: U64, reply: Option<GetReply>)
    ensures var ops := [GetOp(aliceUid, reply)];
            && Run(c, k, bobUid, ops[..0]).st == Init(bobUid)
            && Run(c, k, bobUid, ops).st == AfterGet(c, k, Init(bobUid), aliceUid, reply).0
  {
    hide AfterGet;
    var ops := [GetOp(aliceUid, reply)];
    assert ops[..0] == [];
  }
}
