/** In every honest run, whatever the server answers has an encoding and reaches its client as it is. */
module KtWireRuns {
  import opened Bytes
  import opened MerkleTrie
  import opened MerkleProofs
  import opened KtTypes
  import opened KtServer
  import opened KtServerProofs
  import opened Serde
  import opened KtPackage
  import opened KtWire
  import opened Correctness

  /** Signatures and VRF proofs have lengths that fit 8 bytes. */
  ghost predicate CryptoFits(c: Crypto) {
    forall key, msg :: |c.sign(key, msg)| < U64_BOUND && |c.vrfProve(key, msg)| < U64_BOUND
  }

  // ---- Merkle proofs are short

  const VAL_LEN: nat := 8 + 8 + HASH_LEN

  /** All values are those of versions. */
  ghost predicate ShortVals(m: KeyMap) {
    forall l | l in m :: |m[l]| == VAL_LEN
  }

  lemma ShortProof(h: HashFn, m: KeyMap, lbl: Bytes)
    requires ShortVals(m)
    ensures |ProofBytes(h, m, lbl)| < U64_BOUND
  {
    var t := TrieOf(m);
    SiblingsLength(h, t, [], lbl);
    var o := ProofOf(h, m, lbl);
    if o.foundOtherLeaf {
      FoundIsEntry(t, [], lbl);
    }
    assert |MerkleProofEncode([], o)| == 8 + |o.siblings| + 1 + 8 + |o.leafLabel| + 8 + |o.leafVal|;
  }

  lemma ApplyKeepsShort(c: Crypto, k: ServKeys, epoch: U64, b: Batch, req: Req)
    requires ShortVals(b.keyMap)
    ensures ShortVals(Apply(c, k, epoch, b, req).keyMap)
  {
    hide MapLabel, OpenFor, Commit;
  }

  lemma {:induction false} BatchKeepsShort(c: Crypto, k: ServKeys, epoch: U64, b: Batch, reqs: seq<Req>)
    requires ShortVals(b.keyMap)
    ensures ShortVals(ApplyAll(c, k, epoch, b, reqs).keyMap)
  {
    hide Apply, ShortVals;
    if reqs != [] {
      BatchKeepsShort(c, k, epoch, b, reqs[..|reqs| - 1]);
      ApplyKeepsShort(c, k, epoch, ApplyAll(c, k, epoch, b, reqs[..|reqs| - 1]), reqs[|reqs| - 1]);
    }
  }

  lemma CommitKeepsShort(c: Crypto, k: ServKeys, st: ServState, reqs: seq<Req>)
    requires ShortVals(KeyMapOf(st))
    ensures ShortVals(KeyMapOf(AfterBatch(c, k, st, reqs)))
  {
    hide ApplyAll, Accepted, ShortVals, SignEpoch;
    BatchKeepsShort(c, k, ToU64(|st.hist|), StartBatch(st), Accepted(reqs));
  }

  /** A step leaves the server as it is, or is a batch. */
  lemma ServStep(c: Crypto, k: ServKeys, sys: Sys, ev: Event) returns (reqs: seq<Req>)
    requires SysInv(c, k, sys) && 0 < |sys.serv.hist| && |sys.serv.hist| + 1 < U64_BOUND
    ensures Next(c, k, sys, ev).serv == sys.serv || Next(c, k, sys, ev).serv == AfterBatch(c, k, sys.serv, reqs)
  {
    hide ServInv, QueueOk, NodesOk, AfterBatch, CommitOuts, AfterReturn, MapOne, Mapper0Of, NodeOf, Distinct, HasUid;
    reqs := [];
    if ev.LockedCommit? && sys.phase.Mapping? && |sys.phase.outs| == |sys.phase.batch| {
      reqs := sys.phase.batch;
      CommitIsAfterBatch(c, k, sys.serv, sys.phase.batch, sys.phase.outs);
    }
  }

  lemma {:induction false} RunShortVals(c: Crypto, k: ServKeys, events: seq<Event>)
    requires KeysOk(c, k) && |events| + 2 < U64_BOUND
    ensures ShortVals(KeyMapOf(RunSys(c, k, events).serv))
  {
    hide KeysOk, SysInv, Next, AfterBatch;
    if events != [] {
      var init, ev := events[..|events| - 1], events[|events| - 1];
      RunShortVals(c, k, init);
      RunSysInv(c, k, init);
      var reqs := ServStep(c, k, RunSys(c, k, init), ev);
      CommitKeepsShort(c, k, RunSys(c, k, init).serv, reqs);
    }
  }

  // ---- so all replies fit

  lemma DigFits(c: Crypto, k: ServKeys, st: ServState)
    requires CryptoFits(c) && ServInv(c, k, st)
    ensures |GetDig(st.hist).sig| < U64_BOUND
  {
    hide Registered, MapDigest;
    assert EpochOk(c, k, st, |st.hist| - 1);
  }

  lemma BoundFits(c: Crypto, k: ServKeys, m: KeyMap, uid: U64, ver: U64)
    requires CryptoFits(c) && ShortVals(m)
    ensures NonMembFits(BoundFor(c, k, m, uid, ver)) && MembHideFits(MembHideFor(c, k, m, uid, ver))
  {
    hide ShortVals, ProofBytes, MapLabel;
    ShortProof(c.hash, m, Label(c, k, uid, ver));
  }

  lemma LatestFits(c: Crypto, k: ServKeys, m: KeyMap, uid: U64, numVers: U64, pk: Slice)
    requires CryptoFits(c) && ShortVals(m)
    ensures MembFits(LatestFor(c, k, m, uid, numVers, pk))
  {
    hide ShortVals, ProofBytes, MapLabel, MapValPreDecode;
    if numVers != 0 {
      ShortProof(c.hash, m, Label(c, k, uid, numVers - 1));
    }
  }

  lemma ReadRepliesFit(c: Crypto, k: ServKeys, st: ServState, uid: U64)
    requires CryptoFits(c) && ServInv(c, k, st) && ShortVals(KeyMapOf(st))
    ensures GetReplyFits(ServGet(c, k, st, uid)) && SelfMonReplyFits(ServSelfMon(c, k, st, uid))
  {
    hide ServInv, CryptoFits, ShortVals, BoundFor, MembHideFor, LatestFor, KeyMapOf, GetDig;
    HistBounds(c, k, st);
    DigFits(c, k, st);
    var user, m := UserOf(st.users, uid), KeyMapOf(st);
    BoundFits(c, k, m, uid, user.numVers);
    LatestFits(c, k, m, uid, user.numVers, user.plainPk);
    forall ver: U64
      ensures MembHideFits(MembHideFor(c, k, m, uid, ver))
    {
      BoundFits(c, k, m, uid, ver);
    }
  }

  lemma PutReplyFits(c: Crypto, k: ServKeys, st: ServState, uid: U64, numVers: U64, epoch: U64, pk: Slice)
    requires CryptoFits(c) && ServInv(c, k, st) && ShortVals(KeyMapOf(st))
    ensures 0 < |st.hist| < U64_BOUND
    ensures RespFits(Answer(Mapper1For(c, st, Mapper0For(c, k, uid, numVers, epoch, pk))))
  {
    hide ServInv, ShortVals, KeyMapOf, GetDig, ProofBytes, MapLabel, OpenFor, CompMapVal, ToU64;
    HistBounds(c, k, st);
    DigFits(c, k, st);
    ShortProof(c.hash, KeyMapOf(st), Label(c, k, uid, numVers));
    ShortProof(c.hash, KeyMapOf(st), Label(c, k, uid, ToU64(numVers + 1)));
  }

  // ---- and arrive

  /** After any run with the honest server: whatever is looked up, and whoever monitors its own key, the
      answer that the server gives has an encoding, and the client that decodes it gets this answer. */
  lemma EveryReadArrives(c: Crypto, k: ServKeys, h: Handlers, events: seq<Event>, uid: U64)
    requires KeysOk(c, k) && CryptoFits(c) && KtHandlers(h) && |events| + 2 < U64_BOUND
    ensures var serv := RunSys(c, k, events).serv;
            && 0 < |serv.hist| < U64_BOUND
            && GetReplyFits(ServGet(c, k, serv, uid))
            && Arrives(h, "ServerGetReply", GetReplyVal(ServGet(c, k, serv, uid)))
            && SelfMonReplyFits(ServSelfMon(c, k, serv, uid))
            && Arrives(h, "ServerSelfMonReply", SelfMonReplyVal(ServSelfMon(c, k, serv, uid)))
  {
    hide KeysOk, CryptoFits, KtHandlers, RunSys, ServGet, ServSelfMon, Arrives, GetReplyVal, SelfMonReplyVal;
    hide GetReplyFits, SelfMonReplyFits, ServInv, QueueOk, PhaseOk, NodesOk, ShortVals;
    var serv := RunSys(c, k, events).serv;
    RunSysInv(c, k, events);
    RunShortVals(c, k, events);
    ReadRepliesFit(c, k, serv, uid);
    GetReplyArrives(h, ServGet(c, k, serv, uid));
    SelfMonReplyArrives(h, ServSelfMon(c, k, serv, uid));
  }

  /** After any run with the honest server, the answer that the worker gives to the next put does too. */
  lemma EveryPutReplyArrives(c: Crypto, k: ServKeys, h: Handlers, events: seq<Event>)
    requires KeysOk(c, k) && CryptoFits(c) && KtHandlers(h) && |events| + 2 < U64_BOUND
    requires var phase := RunSys(c, k, events).phase; phase.Committed? && phase.done < |phase.batch|
    ensures var sys := RunSys(c, k, events);
            && sys.phase.done < |sys.phase.outs| && 0 < |sys.serv.hist| < U64_BOUND
            && var resp := RespOf(c, sys.serv, sys.phase.batch, sys.phase.outs, sys.phase.done);
               RespFits(resp) && Arrives(h, "ServerPutReply", RespVal(resp))
  {
    hide KeysOk, CryptoFits, KtHandlers, RunSys, Arrives, RespVal, RespFits, SysInv, ShortVals, RespOf;
    var sys := RunSys(c, k, events);
    RunSysInv(c, k, events);
    RunShortVals(c, k, events);
    NextAnswerFits(c, k, sys);
    RespArrivesIff(h, RespOf(c, sys.serv, sys.phase.batch, sys.phase.outs, sys.phase.done));
  }

  lemma NextAnswerFits(c: Crypto, k: ServKeys, sys: Sys)
    requires KeysOk(c, k) && CryptoFits(c) && SysInv(c, k, sys) && ShortVals(KeyMapOf(sys.serv))
    requires |sys.serv.hist| + 1 < U64_BOUND && sys.phase.Committed? && sys.phase.done < |sys.phase.batch|
    ensures sys.phase.done < |sys.phase.outs| && 0 < |sys.serv.hist| < U64_BOUND
    ensures var resp := RespOf(c, sys.serv, sys.phase.batch, sys.phase.outs, sys.phase.done);
            RespFits(resp) && resp.dig.Some?
  {
    hide KeysOk, CryptoFits, RespFits, ServInv, ShortVals, HasUid, Mapper0For, Mapper1For, NodesOk, QueueOk, Distinct;
    hide KeyMapOf;
    var Committed(batch, outs, done) := sys.phase;
    HistBounds(c, k, sys.serv);
    DistinctPrefix(batch, done);
    var req := batch[done];
    assert PreparedOk(c, k, sys.serv, req, outs[done]);
    PutReplyFits(c, k, sys.serv, req.uid, |Versions(sys.serv.log, req.uid)| - 1, |sys.serv.hist| - 1, req.pk);
  }
}
