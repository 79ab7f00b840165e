/** The steps of the honest system do what they stand for: in every reachable state in which the worker
    waits, a call that is made and served returns, with its effect. */
module CorrectnessProgress {
  import opened Bytes
  import opened KtTypes
  import opened KtClient
  import opened History
  import opened KtServer
  import opened KtServerProofs
  import opened Correctness

  /** One more epoch can be counted. */
  predicate Counts(sys: Sys) {
    0 < |sys.serv.hist| && |sys.serv.hist| + 2 < U64_BOUND
  }

  ghost predicate Steps(c: Crypto, k: ServKeys, sys: Sys) {
    SysInv(c, k, sys) && Counts(sys)
  }

  lemma StepsNext(c: Crypto, k: ServKeys, sys: Sys, ev: Event)
    requires KeysOk(c, k) && Steps(c, k, sys) && !ev.LockedCommit?
    ensures Steps(c, k, Next(c, k, sys, ev)) && Next(c, k, sys, ev).serv == sys.serv
  {
    hide KeysOk, SysInv, AfterReturn, CommitOuts, MapOne, ServGet, ServSelfMon, RespOf;
    NextKeeps(c, k, sys, ev);
  }

  /** An error of a call would show: it is recorded, and stays. */
  lemma ErrorsShow(c: Crypto, k: ServKeys, node: Node)
    requires node.cli.nextVer + 1 < U64_BOUND && |node.hist| <= node.cli.nextEpoch
    ensures var ck, node' := CliKeysOf(k), AfterReturn(c, k, node);
            match node.pending
            case PutBack(pk, reply) => AfterPut(c, ck, node.cli, pk, reply).1.Failed? || node.failed <==> node'.failed
            case GetBack(target, r) =>
              AfterGet(c, ck, node.cli, target, Some(r)).1.Failed? || node.failed <==> node'.failed
            case MonBack(r) => AfterSelfMon(c, ck, node.cli, Some(r)).1.Failed? || node.failed <==> node'.failed
            case _ => node' == node
  {
    hide CheckDig, PutReplyOk, GetReplyOk, SelfMonReplyOk;
  }

  // ---- a call that returns

  lemma NodeCounts(c: Crypto, k: ServKeys, sys: Sys, uid: U64)
    requires Steps(c, k, sys)
    ensures NodeOf(sys, uid).cli.nextVer + 1 < U64_BOUND && |NodeOf(sys, uid).hist| <= NodeOf(sys, uid).cli.nextEpoch
    ensures !NodeOf(sys, uid).failed && PendingOk(c, k, sys.serv, uid, NodeOf(sys, uid))
  {
    hide ServInv, QueueOk, PhaseOk, NodesOk, ClientAgrees, Records, AnswerOk, Inv, PendingOk;
    NodeFacts(c, k, sys, uid);
    VersionsFit(c, k, sys.serv, uid);
  }

  /** The call succeeds, and the client is as after it. */
  lemma ReturnSucceeds(c: Crypto, k: ServKeys, sys: Sys, uid: U64)
    requires KeysOk(c, k) && Steps(c, k, sys)
    ensures NodeOf(sys, uid).cli.nextVer + 1 < U64_BOUND && |NodeOf(sys, uid).hist| <= NodeOf(sys, uid).cli.nextEpoch
    ensures var sys' := Next(c, k, sys, Return(uid));
            && Steps(c, k, sys') && sys'.serv == sys.serv && sys'.phase == sys.phase && sys'.queue == sys.queue
            && !NodeOf(sys', uid).failed && NodeOf(sys', uid) == AfterReturn(c, k, NodeOf(sys, uid))
            && forall v: U64 | v != uid :: NodeOf(sys', v) == NodeOf(sys, v)
  {
    hide KeysOk, SysInv, AfterReturn;
    NodeCounts(c, k, sys, uid);
    StepsNext(c, k, sys, Return(uid));
    NodeCounts(c, k, Next(c, k, sys, Return(uid)), uid);
  }

  /** A put that returns is counted, and is the last entry of the history. */
  lemma PutReturns(c: Crypto, k: ServKeys, sys: Sys, uid: U64)
    requires KeysOk(c, k) && Steps(c, k, sys) && NodeOf(sys, uid).pending.PutBack?
    ensures var node, node' := NodeOf(sys, uid), NodeOf(Next(c, k, sys, Return(uid)), uid);
            var PutBack(pk, reply) := node.pending;
            && reply.Some? && node'.pending.Ready? && !node'.failed
            && node'.cli.nextVer == node.cli.nextVer + 1 && node'.lastEpoch == Some(reply.value.dig.epoch)
            && |node'.hist| == reply.value.dig.epoch + 1 && node'.hist[reply.value.dig.epoch] == HistEntry(true, pk)
            && node'.answers == node.answers
  {
    hide KeysOk, SysInv, Next, CheckDig, PutReplyOk;
    ReturnSucceeds(c, k, sys, uid);
    NodeCounts(c, k, sys, uid);
    HistReaches(c, k, Next(c, k, sys, Return(uid)), uid);
  }

  lemma HistReaches(c: Crypto, k: ServKeys, sys: Sys, uid: U64)
    requires Steps(c, k, sys)
    ensures var node := NodeOf(sys, uid); |node.hist| == if node.lastEpoch.Some? then node.lastEpoch.value + 1 else 0
  {
    hide ServInv, QueueOk, PhaseOk, NodesOk, ClientAgrees, Records, AnswerOk, Inv, PendingOk;
    NodeFacts(c, k, sys, uid);
  }

  /** A lookup that returns is recorded, with the epoch and the key of the server's answer. */
  lemma GetReturns(c: Crypto, k: ServKeys, sys: Sys, uid: U64)
    requires KeysOk(c, k) && Steps(c, k, sys) && NodeOf(sys, uid).pending.GetBack?
    ensures var node, node' := NodeOf(sys, uid), NodeOf(Next(c, k, sys, Return(uid)), uid);
            var GetBack(target, r) := node.pending;
            && node'.pending.Ready? && !node'.failed && node'.hist == node.hist && node'.lastEpoch == node.lastEpoch
            && node'.answers
               == node.answers + [Answered(target, r.dig.epoch, HistEntry(r.isReg, r.latest.pkOpen.val))]
  {
    hide KeysOk, SysInv, Next, CheckDig, GetReplyOk;
    ReturnSucceeds(c, k, sys, uid);
  }

  /** A self-monitoring call that returns extends the history to the epoch of the server's answer. */
  lemma SelfMonReturns(c: Crypto, k: ServKeys, sys: Sys, uid: U64)
    requires KeysOk(c, k) && Steps(c, k, sys) && NodeOf(sys, uid).pending.MonBack?
    ensures var node, node' := NodeOf(sys, uid), NodeOf(Next(c, k, sys, Return(uid)), uid);
            var epoch := node.pending.monReply.dig.epoch;
            && node'.pending.Ready? && !node'.failed && node'.answers == node.answers
            && node'.lastEpoch == Some(epoch) && |node'.hist| == epoch + 1
  {
    hide KeysOk, SysInv, Next, CheckDig, SelfMonReplyOk;
    ReturnSucceeds(c, k, sys, uid);
    HistReaches(c, k, Next(c, k, sys, Return(uid)), uid);
  }

  // ---- calls, and their service

  /** The step changes the client's pending call, and nothing else. */
  ghost predicate Pends(sys: Sys, sys': Sys, uid: U64, pending: Pending) {
    && sys'.serv == sys.serv && sys'.phase == sys.phase
    && NodeOf(sys', uid) == NodeOf(sys, uid).(pending := pending)
    && forall v: U64 | v != uid :: NodeOf(sys', v) == NodeOf(sys, v)
  }

  lemma CallSteps(c: Crypto, k: ServKeys, sys: Sys, uid: U64, target: U64, pk: Slice)
    requires Counts(sys) && NodeOf(sys, uid).pending.Ready?
    ensures Pends(sys, Next(c, k, sys, CallGet(uid, target)), uid, Getting(target))
    ensures Pends(sys, Next(c, k, sys, CallSelfMon(uid)), uid, Monitoring)
    ensures Pends(sys, Next(c, k, sys, CallPut(uid, pk)), uid, Putting(pk))
    ensures Next(c, k, sys, CallGet(uid, target)).queue == Next(c, k, sys, CallSelfMon(uid)).queue == sys.queue
    ensures Next(c, k, sys, CallPut(uid, pk)).queue == sys.queue + [Req(uid, pk)]
  {
  }

  lemma ServeSteps(c: Crypto, k: ServKeys, sys: Sys, uid: U64)
    requires Counts(sys)
    ensures NodeOf(sys, uid).pending.Getting? ==>
              var target := NodeOf(sys, uid).pending.target;
              Pends(sys, Next(c, k, sys, ServeGet(uid)), uid, GetBack(target, ServGet(c, k, sys.serv, target)))
    ensures NodeOf(sys, uid).pending.Monitoring? ==>
              Pends(sys, Next(c, k, sys, ServeSelfMon(uid)), uid, MonBack(ServSelfMon(c, k, sys.serv, uid)))
  {
    hide ServGet, ServSelfMon;
  }

  /** What readers get is about the latest epoch. */
  lemma ReadEpochs(c: Crypto, k: ServKeys, serv: ServState, uid: U64)
    requires 0 < |serv.hist| < U64_BOUND
    ensures ServGet(c, k, serv, uid).dig.epoch == ServSelfMon(c, k, serv, uid).dig.epoch == |serv.hist| - 1
  {
    hide HistFor, LatestFor, BoundFor;
  }

  // ---- whole calls

  /** Whoever looks up whom, whenever: the answer is recorded with the server's latest epoch then. */
  lemma GetCompletes(c: Crypto, k: ServKeys, sys: Sys, uid: U64, target: U64)
    requires KeysOk(c, k) && Steps(c, k, sys) && NodeOf(sys, uid).pending.Ready?
    ensures var s1 := Next(c, k, sys, CallGet(uid, target));
            Counts(s1) &&
            var s2 := Next(c, k, s1, ServeGet(uid));
            Counts(s2) &&
            var s3 := Next(c, k, s2, Return(uid));
            var r := ServGet(c, k, sys.serv, target);
            NodeOf(s3, uid).answers
            == NodeOf(sys, uid).answers
               + [Answered(target, |sys.serv.hist| - 1, HistEntry(r.isReg, r.latest.pkOpen.val))]
  {
    hide KeysOk, SysInv, Next, ServGet, ServSelfMon, NodeOf;
    var s1 := Next(c, k, sys, CallGet(uid, target));
    StepsNext(c, k, sys, CallGet(uid, target));
    CallSteps(c, k, sys, uid, target, []);
    var s2 := Next(c, k, s1, ServeGet(uid));
    StepsNext(c, k, s1, ServeGet(uid));
    ServeSteps(c, k, s1, uid);
    GetReturns(c, k, s2, uid);
    ReadEpochs(c, k, sys.serv, target);
  }

  /** Whoever monitors its own key, whenever: its history then reaches the server's latest epoch. */
  lemma SelfMonCompletes(c: Crypto, k: ServKeys, sys: Sys, uid: U64)
    requires KeysOk(c, k) && Steps(c, k, sys) && NodeOf(sys, uid).pending.Ready?
    ensures var s1 := Next(c, k, sys, CallSelfMon(uid));
            Counts(s1) &&
            var s2 := Next(c, k, s1, ServeSelfMon(uid));
            Counts(s2) &&
            var s3 := Next(c, k, s2, Return(uid));
            |NodeOf(s3, uid).hist| == |sys.serv.hist| && NodeOf(s3, uid).lastEpoch == Some(|sys.serv.hist| - 1)
  {
    hide KeysOk, SysInv, Next, ServGet, ServSelfMon, NodeOf;
    var s1 := Next(c, k, sys, CallSelfMon(uid));
    StepsNext(c, k, sys, CallSelfMon(uid));
    CallSteps(c, k, sys, uid, uid, []);
    var s2 := Next(c, k, s1, ServeSelfMon(uid));
    StepsNext(c, k, s1, ServeSelfMon(uid));
    ServeSteps(c, k, s1, uid);
    SelfMonReturns(c, k, s2, uid);
    ReadEpochs(c, k, sys.serv, uid);
  }

  // ---- a put, through the worker's phases

  /** The worker takes the whole queue and maps it. */
  lemma TakeSteps(c: Crypto, k: ServKeys, sys: Sys)
    requires Counts(sys) && sys.phase.Waiting? && |sys.queue| == 1
    ensures var s1 := Next(c, k, sys, Take);
            && s1.serv == sys.serv && s1.nodes == sys.nodes && s1.queue == []
            && var s2 := Next(c, k, s1, Map0);
               && s2.serv == sys.serv && s2.nodes == sys.nodes && s2.queue == []
               && s2.phase.Mapping? && s2.phase.batch == sys.queue && |s2.phase.outs| == 1
  {
    hide MapOne;
  }

  /** It commits the batch as the next epoch. */
  lemma CommitStep(c: Crypto, k: ServKeys, sys: Sys)
    requires KeysOk(c, k) && SysInv(c, k, sys) && 0 < |sys.serv.hist| && |sys.serv.hist| + 3 < U64_BOUND
    requires sys.phase.Mapping? && |sys.phase.batch| == |sys.phase.outs| == 1
    ensures var sys' := Next(c, k, sys, LockedCommit);
            && Steps(c, k, sys') && |sys'.serv.hist| == |sys.serv.hist| + 1
            && sys'.nodes == sys.nodes && sys'.queue == sys.queue
            && sys'.phase == Committed(sys.phase.batch, sys.phase.outs, 0)
  {
    hide KeysOk, SysInv, ApplyOuts;
    NextKeeps(c, k, sys, LockedCommit);
  }

  /** It answers, and waits again. */
  lemma FinishSteps(c: Crypto, k: ServKeys, sys: Sys)
    requires Counts(sys) && sys.phase.Committed? && |sys.phase.batch| == |sys.phase.outs| == 1 && sys.phase.done == 0
    ensures var req := sys.phase.batch[0];
            var s1 := Next(c, k, sys, Finish);
            && s1.serv == sys.serv && s1.queue == sys.queue && NodeOf(s1, req.uid).pending.PutBack?
            && NodeOf(s1, req.uid) == NodeOf(sys, req.uid).(pending := NodeOf(s1, req.uid).pending)
            && NodeOf(s1, req.uid).pending.pk == req.pk
            && var s2 := Next(c, k, s1, Finish);
               s2.serv == sys.serv && s2.queue == sys.queue && s2.nodes == s1.nodes && s2.phase.Waiting?
  {
    hide RespOf;
  }

  /** The reply is about the epoch in which the put was committed. */
  lemma PutBackEpoch(c: Crypto, k: ServKeys, sys: Sys, uid: U64)
    requires Steps(c, k, sys) && NodeOf(sys, uid).pending.PutBack?
    ensures NodeOf(sys, uid).pending.putReply.Some?
    ensures var puts, epoch := Versions(sys.serv.log, uid), NodeOf(sys, uid).pending.putReply.value.dig.epoch;
            puts != [] && epoch == puts[|puts| - 1].epoch
  {
    hide ServInv, QueueOk, PhaseOk, NodesOk, ClientAgrees, Records, AnswerOk, Inv, PutReplyOk;
    NodeFacts(c, k, sys, uid);
  }

  /** In a state in which the worker waits for work, a put that is made, taken, mapped, committed and
      answered returns: the client has counted it, and it is the last entry of its history. */
  lemma PutCompletes(c: Crypto, k: ServKeys, sys: Sys, uid: U64, pk: Slice) returns (sys': Sys)
    requires KeysOk(c, k) && Steps(c, k, sys) && |sys.serv.hist| + 3 < U64_BOUND
    requires NodeOf(sys, uid).pending.Ready? && sys.phase.Waiting? && sys.queue == []
    ensures ReachedBy(c, k, sys, [CallPut(uid, pk), Take, Map0, LockedCommit, Finish, Finish, Return(uid)], sys')
    ensures Steps(c, k, sys') && sys'.phase.Waiting? && sys'.queue == [] && |sys'.serv.hist| == |sys.serv.hist| + 1
    ensures var node, node' := NodeOf(sys, uid), NodeOf(sys', uid);
            && node'.pending.Ready? && !node'.failed && node'.cli.nextVer == node.cli.nextVer + 1
            && node'.hist != [] && node'.hist[|node'.hist| - 1] == HistEntry(true, pk)
  {
    hide KeysOk, SysInv, Next, NodeOf, Versions;
    var s1 := Next(c, k, sys, CallPut(uid, pk));
    StepsNext(c, k, sys, CallPut(uid, pk));
    CallSteps(c, k, sys, uid, uid, pk);
    var s2 := Next(c, k, s1, Take);
    StepsNext(c, k, s1, Take);
    var s3 := Next(c, k, s2, Map0);
    StepsNext(c, k, s2, Map0);
    TakeSteps(c, k, s1);
    var s4 := Next(c, k, s3, LockedCommit);
    CommitStep(c, k, s3);
    var s5 := Next(c, k, s4, Finish);
    StepsNext(c, k, s4, Finish);
    var s6 := Next(c, k, s5, Finish);
    StepsNext(c, k, s5, Finish);
    FinishSteps(c, k, s4);
    SameNode(s1, s4, s5, s6, uid);
    sys' := Next(c, k, s6, Return(uid));
    ReturnSucceeds(c, k, s6, uid);
    PutReturns(c, k, s6, uid);
    SevenSteps(c, k, sys, s1, s2, s3, s4, s5, s6, sys', uid, pk);
  }

  lemma SameNode(s1: Sys, s4: Sys, s5: Sys, s6: Sys, uid: U64)
    requires s4.nodes == s1.nodes && s6.nodes == s5.nodes
    ensures NodeOf(s4, uid) == NodeOf(s1, uid) && NodeOf(s6, uid) == NodeOf(s5, uid)
  {
  }

  /** The events lead from one state to the other. */
  ghost predicate ReachedBy(c: Crypto, k: ServKeys, sys: Sys, events: seq<Event>, sys': Sys)
    decreases |events|
  {
    if events == [] then sys' == sys
    else
      0 < |sys.serv.hist| && |sys.serv.hist| + 1 < U64_BOUND
      && ReachedBy(c, k, Next(c, k, sys, events[0]), events[1..], sys')
  }

  lemma SevenSteps(c: Crypto, k: ServKeys, sys: Sys, s1: Sys, s2: Sys, s3: Sys, s4: Sys, s5: Sys, s6: Sys, sys': Sys,
                   uid: U64, pk: Slice)
    requires Counts(sys) && Counts(s1) && Counts(s2) && Counts(s3) && Counts(s4) && Counts(s5) && Counts(s6)
    requires s1 == Next(c, k, sys, CallPut(uid, pk)) && s2 == Next(c, k, s1, Take) && s3 == Next(c, k, s2, Map0)
    requires s4 == Next(c, k, s3, LockedCommit) && s5 == Next(c, k, s4, Finish) && s6 == Next(c, k, s5, Finish)
    requires sys' == Next(c, k, s6, Return(uid))
    ensures ReachedBy(c, k, sys, [CallPut(uid, pk), Take, Map0, LockedCommit, Finish, Finish, Return(uid)], sys')
  {
    hide Next;
    assert ReachedBy(c, k, s6, [Return(uid)], sys');
    assert ReachedBy(c, k, s5, [Finish] + [Return(uid)], sys');
    assert ReachedBy(c, k, s4, [Finish] + [Finish, Return(uid)], sys');
    assert ReachedBy(c, k, s3, [LockedCommit] + [Finish, Finish, Return(uid)], sys');
    assert ReachedBy(c, k, s2, [Map0] + [LockedCommit, Finish, Finish, Return(uid)], sys');
    assert ReachedBy(c, k, s1, [Take] + [Map0, LockedCommit, Finish, Finish, Return(uid)], sys');
    assert ReachedBy(c, k, sys, [CallPut(uid, pk)] + [Take, Map0, LockedCommit, Finish, Finish, Return(uid)], sys');
  }
}
