/** alicebob/alicebob.go with an honest server and no auditor: every interleaving of the clients'
    calls with the server's three-phase worker. One client per uid, one call at a time each. */
module Correctness {
  import opened Bytes
  import opened MerkleProofs
  import opened KtTypes
  import opened Evidence
  import opened KtClient
  import opened History
  import opened KtServer
  import opened KtServerProofs
  import Auditor = KtAuditor

  // ---- the system

  /** What a client waits for: nothing, its put in the queue or in the worker's hands, an answer
      of the server, or an answer that is on its way back. */
  datatype Pending =
    | Ready
    | Putting(pk: Slice)
    | PutBack(pk: Slice, putReply: Option<PutReply>)
    | Getting(target: U64)
    | GetBack(target: U64, getReply: GetReply)
    | Monitoring
    | MonBack(monReply: SelfMonReply)

  /** What a Get returned. */
  datatype Answered = Answered(target: U64, epoch: U64, entry: HistEntry)

  /** A client, the history it keeps of its own key, the answers it got, whether a call of it ever
      returned an error, and the epoch that its last put or self-monitoring returned. */
  datatype Node = Node(cli: CliState, hist: seq<HistEntry>, pending: Pending, answers: seq<Answered>, failed: bool,
                       lastEpoch: Option<U64>)

  /** The worker between its critical sections: outs are what mapper0 has computed so far; after
      the commit, the first done requests have their answers. */
  datatype Phase =
    | Waiting
    | Mapping(batch: seq<Req>, outs: seq<Mapper0Out>)
    | Committed(batch: seq<Req>, outs: seq<Mapper0Out>, done: nat)

  datatype Sys = Sys(serv: ServState, phase: Phase, queue: seq<Req>, nodes: map<U64, Node>)

  function NodeOf(sys: Sys, uid: U64): Node {
    if uid in sys.nodes then sys.nodes[uid] else Node(Init(uid), [], Ready, [], false, None)
  }

  function SetNode(sys: Sys, uid: U64, node: Node): Sys {
    sys.(nodes := sys.nodes[uid := node])
  }

  ghost function InitSys(c: Crypto, k: ServKeys): Sys {
    Sys(ServInit(c, k), Waiting, [], map[])
  }

  datatype Event =
    | CallPut(uid: U64, pk: Slice)
    | CallGet(uid: U64, target: U64)
    | CallSelfMon(uid: U64)
    | Take
    | Map0
    | LockedCommit
    | Finish
    | ServeGet(uid: U64)
    | ServeSelfMon(uid: U64)
    | Return(uid: U64)

  // ---- the commit, as the worker does it: with what mapper0 computed before the lock

  function ApplyOut(epoch: U64, b: Batch, req: Req, out: Mapper0Out): Batch {
    Batch(b.keyMap[out.latestVrfHash := out.mapVal], b.upd[out.latestVrfHash := out.mapVal],
          b.users[req.uid := User(ToU64(UserOf(b.users, req.uid).numVers + 1), req.pk)],
          b.log[req.uid := Versions(b.log, req.uid) + [PutRec(epoch, out.pkOpen)]])
  }

  function ApplyOuts(epoch: U64, b: Batch, reqs: seq<Req>, outs: seq<Mapper0Out>): Batch
    requires |reqs| == |outs|
  {
    if reqs == [] then b
    else
      var n := |reqs| - 1;
      var b' := ApplyOuts(epoch, b, reqs[..n], outs[..n]);
      if HasUid(reqs[..n], reqs[n].uid) then b' else ApplyOut(epoch, b', reqs[n], outs[n])
  }

  ghost function CommitOuts(c: Crypto, k: ServKeys, st: ServState, reqs: seq<Req>, outs: seq<Mapper0Out>): ServState
    requires |reqs| == |outs|
  {
    var b := ApplyOuts(ToU64(|st.hist|), StartBatch(st), reqs, outs);
    ServState(b.users, SignEpoch(c, k, st.hist, b.keyMap, b.upd), st.maps + [b.keyMap], b.log)
  }

  /** mapper0 has run for every request that is not rejected. */
  ghost predicate MappedOk(c: Crypto, k: ServKeys, st: ServState, reqs: seq<Req>, outs: seq<Mapper0Out>)
    requires |reqs| == |outs|
  {
    forall i: nat | i < |reqs| && !HasUid(reqs[..i], reqs[i].uid) :: outs[i] == Mapper0Of(c, k, st, reqs[i])
  }

  lemma MappedInit(c: Crypto, k: ServKeys, st: ServState, reqs: seq<Req>, outs: seq<Mapper0Out>)
    requires |reqs| == |outs| > 0 && MappedOk(c, k, st, reqs, outs)
    ensures var n := |reqs| - 1;
            && MappedOk(c, k, st, reqs[..n], outs[..n])
            && (!HasUid(reqs[..n], reqs[n].uid) ==> outs[n] == Mapper0Of(c, k, st, reqs[n]))
  {
    hide HasUid, Mapper0Of;
    var n := |reqs| - 1;
    assert forall i: nat | i < n :: reqs[..n][..i] == reqs[..i];
  }

  lemma OutStillValid(c: Crypto, k: ServKeys, st: ServState, b: Batch, req: Req)
    requires UserOf(b.users, req.uid) == UserOf(st.users, req.uid)
    ensures ApplyOut(ToU64(|st.hist|), b, req, Mapper0Of(c, k, st, req)) == Apply(c, k, ToU64(|st.hist|), b, req)
  {
    hide ToU64, Label, LabelProof, OpenFor, CompMapVal;
  }

  lemma {:induction false} OutsStillValid(c: Crypto, k: ServKeys, st: ServState, reqs: seq<Req>, outs: seq<Mapper0Out>)
    requires |reqs| == |outs| && MappedOk(c, k, st, reqs, outs)
    ensures ApplyOuts(ToU64(|st.hist|), StartBatch(st), reqs, outs)
            == ApplyAll(c, k, ToU64(|st.hist|), StartBatch(st), Accepted(reqs))
  {
    hide MappedOk, ToU64, HasUid, ApplyOut, Apply, Mapper0Of, Versions, UserOf;
    if reqs != [] {
      var n, epoch := |reqs| - 1, ToU64(|st.hist|);
      var init, last := reqs[..n], reqs[n];
      MappedInit(c, k, st, reqs, outs);
      OutsStillValid(c, k, st, init, outs[..n]);
      if HasUid(init, last.uid) {
        assert Accepted(init) + [] == Accepted(init);
      } else {
        BatchVersions(c, k, epoch, StartBatch(st), init, last.uid);
        OutStillValid(c, k, st, ApplyAll(c, k, epoch, StartBatch(st), Accepted(init)), last);
        assert (Accepted(init) + [last])[..|Accepted(init)|] == Accepted(init);
      }
    }
  }

  /** What mapper0 computed before the lock still holds at the commit. */
  lemma CommitIsAfterBatch(c: Crypto, k: ServKeys, st: ServState, reqs: seq<Req>, outs: seq<Mapper0Out>)
    requires |reqs| == |outs| && MappedOk(c, k, st, reqs, outs)
    ensures CommitOuts(c, k, st, reqs, outs) == AfterBatch(c, k, st, reqs)
  {
    hide ApplyOuts, ApplyAll, Accepted, SignEpoch;
    OutsStillValid(c, k, st, reqs, outs);
  }

  // ---- steps

  /** A call returns: what the client makes of the answer, and what alicebob records of it. */
  ghost function AfterReturn(c: Crypto, k: ServKeys, node: Node): Node
    requires node.cli.nextVer + 1 < U64_BOUND && |node.hist| <= node.cli.nextEpoch
  {
    var ck := CliKeysOf(k);
    match node.pending
    case PutBack(pk, reply) =>
      var (cli, err) := AfterPut(c, ck, node.cli, pk, reply);
      if err.Failed? then node.(pending := Ready, failed := true)
      else node.(cli := cli, pending := Ready,
                 hist := ExtendHist(node.hist, reply.value.dig.epoch) + [HistEntry(true, pk)],
                 lastEpoch := Some(reply.value.dig.epoch))
    case GetBack(target, r) =>
      var (cli, err) := AfterGet(c, ck, node.cli, target, Some(r));
      if err.Failed? then node.(pending := Ready, failed := true)
      else node.(cli := cli, pending := Ready,
                 answers := node.answers + [Answered(target, r.dig.epoch, HistEntry(r.isReg, r.latest.pkOpen.val))])
    case MonBack(r) =>
      var (cli, err) := AfterSelfMon(c, ck, node.cli, Some(r));
      if err.Failed? then node.(pending := Ready, failed := true)
      else node.(cli := cli, pending := Ready, hist := ExtendHist(node.hist, r.dig.epoch + 1),
                 lastEpoch := Some(r.dig.epoch))
    case _ => node
  }

  /** The client's request joins the queue. */
  function AfterCallPut(sys: Sys, req: Req): Sys {
    SetNode(sys, req.uid, NodeOf(sys, req.uid).(pending := Putting(req.pk))).(queue := sys.queue + [req])
  }

  /** mapper0 for request i of a batch. */
  ghost function MapOne(c: Crypto, k: ServKeys, serv: ServState, batch: seq<Req>, i: nat): Mapper0Out
    requires i < |batch|
  {
    if HasUid(batch[..i], batch[i].uid) then NO_OUT else Mapper0Of(c, k, serv, batch[i])
  }

  /** What the worker answers to request i of a batch it has committed. */
  ghost function RespOf(c: Crypto, serv: ServState, batch: seq<Req>, outs: seq<Mapper0Out>, i: nat): WQResp
    requires i < |batch| && i < |outs| && 0 < |serv.hist| < U64_BOUND
  {
    if HasUid(batch[..i], batch[i].uid) then REJECTED else Answer(Mapper1For(c, serv, outs[i]))
  }

  /** The state after an event; an event that is not possible changes nothing. */
  ghost function Next(c: Crypto, k: ServKeys, sys: Sys, ev: Event): Sys
    requires 0 < |sys.serv.hist| && |sys.serv.hist| + 1 < U64_BOUND
  {
    match ev
    case CallPut(uid, pk) =>
      if !NodeOf(sys, uid).pending.Ready? then sys else AfterCallPut(sys, Req(uid, pk))
    case CallGet(uid, target) =>
      var node := NodeOf(sys, uid);
      if !node.pending.Ready? then sys else SetNode(sys, uid, node.(pending := Getting(target)))
    case CallSelfMon(uid) =>
      var node := NodeOf(sys, uid);
      if !node.pending.Ready? then sys else SetNode(sys, uid, node.(pending := Monitoring))
    case Take =>
      if !sys.phase.Waiting? || sys.queue == [] then sys else sys.(phase := Mapping(sys.queue, []), queue := [])
    case Map0 =>
      if !sys.phase.Mapping? || |sys.phase.outs| >= |sys.phase.batch| then sys
      else
        var Mapping(batch, outs) := sys.phase;
        sys.(phase := Mapping(batch, outs + [MapOne(c, k, sys.serv, batch, |outs|)]))
    case LockedCommit =>
      if !sys.phase.Mapping? || |sys.phase.outs| != |sys.phase.batch| then sys
      else
        var Mapping(batch, outs) := sys.phase;
        sys.(serv := CommitOuts(c, k, sys.serv, batch, outs), phase := Committed(batch, outs, 0))
    case Finish =>
      if !sys.phase.Committed? then sys
      else if sys.phase.done >= |sys.phase.batch| || sys.phase.done >= |sys.phase.outs| then sys.(phase := Waiting)
      else
        var Committed(batch, outs, done) := sys.phase;
        var req := batch[done];
        var resp := RespOf(c, sys.serv, batch, outs, done);
        SetNode(sys, req.uid, NodeOf(sys, req.uid).(pending := PutBack(req.pk, ReplyOf(resp))))
          .(phase := Committed(batch, outs, done + 1))
    case ServeGet(uid) =>
      var node := NodeOf(sys, uid);
      if !node.pending.Getting? then sys
      else SetNode(sys, uid,
        node.(pending := GetBack(node.pending.target, ServGet(c, k, sys.serv, node.pending.target))))
    case ServeSelfMon(uid) =>
      var node := NodeOf(sys, uid);
      if !node.pending.Monitoring? then sys
      else SetNode(sys, uid, node.(pending := MonBack(ServSelfMon(c, k, sys.serv, uid))))
    case Return(uid) =>
      var node := NodeOf(sys, uid);
      if node.cli.nextVer + 1 < U64_BOUND && |node.hist| <= node.cli.nextEpoch
      then SetNode(sys, uid, AfterReturn(c, k, node))
      else SetNode(sys, uid, node.(failed := true))
  }

  // ---- what every run keeps

  /** Requests that wait to be committed, and committed ones that wait for their answer. */
  function Uncommitted(sys: Sys): seq<Req> {
    (if sys.phase.Mapping? then sys.phase.batch else []) + sys.queue
  }

  function Unanswered(sys: Sys): seq<Req> {
    if sys.phase.Committed? && sys.phase.done <= |sys.phase.batch| then sys.phase.batch[sys.phase.done..] else []
  }

  ghost predicate AnswerOk(log: Log, n: nat, a: Answered) {
    a.epoch < n && a.entry.isReg == EntryAt(Versions(log, a.target), a.epoch).isReg
    && (a.entry.isReg ==> a.entry == EntryAt(Versions(log, a.target), a.epoch))
  }

  /** An answer on its way back will be accepted; it was right in the epoch of its digest. */
  ghost predicate PendingOk(c: Crypto, k: ServKeys, serv: ServState, uid: U64, node: Node) {
    var puts, ver := Versions(serv.log, uid), node.cli.nextVer;
    match node.pending
    case PutBack(pk, reply) =>
      && ver + 1 < U64_BOUND && reply.Some? && PutReplyOk(c, CliKeysOf(k), node.cli, pk, reply.value)
      && |puts| == ver + 1 && puts[ver].open.val == pk
      && reply.value.dig.epoch == puts[ver].epoch < |serv.hist|
      && reply.value.dig == DigOfEpoch(serv.hist, puts[ver].epoch)
    case GetBack(target, r) =>
      && GetReplyOk(c, CliKeysOf(k), node.cli, target, r)
      && r.dig.epoch < |serv.hist| && r.dig == DigOfEpoch(serv.hist, r.dig.epoch)
      && AnswerOk(serv.log, |serv.hist|, Answered(target, r.dig.epoch, HistEntry(r.isReg, r.latest.pkOpen.val)))
    case MonBack(r) =>
      && SelfMonReplyOk(c, CliKeysOf(k), node.cli, r)
      && r.dig.epoch < |serv.hist| && r.dig == DigOfEpoch(serv.hist, r.dig.epoch)
    case _ => true
  }

  /** The client agrees with the server about digests and versions; its history is that of its
      first nextVer versions; it may be one version behind, if that put has not returned yet. */
  ghost predicate NodeOk(c: Crypto, k: ServKeys, serv: ServState, uid: U64, node: Node) {
    var puts, ver := Versions(serv.log, uid), node.cli.nextVer;
    && !node.failed && node.cli.uid == uid && Inv(c, CliKeysOf(k), node.cli)
    && ClientAgrees(node.cli, serv.hist)
    && ver <= |puts| <= ver + 1
    && (|puts| == ver + 1 ==> puts[ver].epoch >= node.cli.nextEpoch && (node.pending.Putting? || node.pending.PutBack?))
    && Records(node.hist, puts[..ver]) && |node.hist| <= node.cli.nextEpoch
    && |node.hist| == (if node.lastEpoch.Some? then node.lastEpoch.value + 1 else 0)
    && forall a | a in node.answers :: AnswerOk(serv.log, |serv.hist|, a)
  }

  /** The put of the node, if it waits for one, is where the worker has it. */
  ghost predicate Placed(serv: ServState, uncommitted: seq<Req>, unanswered: seq<Req>, uid: U64, node: Node) {
    var puts, ver := Versions(serv.log, uid), node.cli.nextVer;
    && (HasUid(uncommitted, uid) || HasUid(unanswered, uid) ==> node.pending.Putting?)
    && (node.pending.Putting? && |puts| == ver + 1 ==>
          HasUid(unanswered, uid) && puts[ver].epoch == |serv.hist| - 1 && puts[ver].open.val == node.pending.pk)
    && (HasUid(unanswered, uid) ==> |puts| == ver + 1)
  }

  ghost predicate QueueOk(c: Crypto, k: ServKeys, sys: Sys) {
    && Distinct(Unanswered(sys) + Uncommitted(sys))
    && (forall r | r in Unanswered(sys) + Uncommitted(sys) :: NodeOf(sys, r.uid).pending == Putting(r.pk))
  }

  ghost predicate PhaseOk(c: Crypto, k: ServKeys, serv: ServState, phase: Phase) {
    match phase
    case Waiting => true
    case Mapping(batch, outs) =>
      |outs| <= |batch| && Distinct(batch)
      && forall i: nat | i < |outs| :: outs[i] == Mapper0Of(c, k, serv, batch[i])
    case Committed(batch, outs, done) =>
      |outs| == |batch| && Distinct(batch) && done <= |batch|
      && forall i: nat | i < |outs| :: done <= i ==> PreparedOk(c, k, serv, batch[i], outs[i])
  }

  /** Mapper0 prepared the version that the commit has just added for the request. */
  ghost predicate PreparedOk(c: Crypto, k: ServKeys, serv: ServState, req: Req, out: Mapper0Out) {
    var n := |Versions(serv.log, req.uid)|;
    && 0 < n < U64_BOUND && 0 < |serv.hist| < U64_BOUND
    && out == Mapper0For(c, k, req.uid, n - 1, |serv.hist| - 1, req.pk)
  }

  ghost predicate NodesOk(c: Crypto, k: ServKeys, sys: Sys) {
    forall uid: U64 ::
      && NodeOk(c, k, sys.serv, uid, NodeOf(sys, uid))
      && PendingOk(c, k, sys.serv, uid, NodeOf(sys, uid))
      && Placed(sys.serv, Uncommitted(sys), Unanswered(sys), uid, NodeOf(sys, uid))
  }

  ghost predicate SysInv(c: Crypto, k: ServKeys, sys: Sys) {
    ServInv(c, k, sys.serv) && QueueOk(c, k, sys) && PhaseOk(c, k, sys.serv, sys.phase) && NodesOk(c, k, sys)
  }

  lemma InitSysInv(c: Crypto, k: ServKeys)
    ensures SysInv(c, k, InitSys(c, k))
  {
    hide ServInv, SignEpoch;
    InitInv(c, k);
  }

  lemma NodeFacts(c: Crypto, k: ServKeys, sys: Sys, uid: U64)
    requires NodesOk(c, k, sys)
    ensures NodeOk(c, k, sys.serv, uid, NodeOf(sys, uid))
    ensures PendingOk(c, k, sys.serv, uid, NodeOf(sys, uid))
    ensures Placed(sys.serv, Uncommitted(sys), Unanswered(sys), uid, NodeOf(sys, uid))
  {
    hide NodeOk, PendingOk, Placed, Uncommitted, Unanswered, NodeOf;
  }

  /** A step that changes no node, no server field, and no request's place. */
  lemma SameNodes(c: Crypto, k: ServKeys, sys: Sys, sys': Sys)
    requires NodesOk(c, k, sys) && sys'.serv == sys.serv
    requires Uncommitted(sys') == Uncommitted(sys) && Unanswered(sys') == Unanswered(sys)
    requires forall v: U64 :: NodeOf(sys', v) == NodeOf(sys, v)
    ensures NodesOk(c, k, sys')
    ensures QueueOk(c, k, sys) ==> QueueOk(c, k, sys')
  {
    hide NodeOk, PendingOk, Placed, Distinct, Uncommitted, Unanswered, NodeOf;
    forall v: U64
      ensures NodeOk(c, k, sys'.serv, v, NodeOf(sys', v)) && PendingOk(c, k, sys'.serv, v, NodeOf(sys', v))
      ensures Placed(sys'.serv, Uncommitted(sys'), Unanswered(sys'), v, NodeOf(sys', v))
    {
      NodeFacts(c, k, sys, v);
    }
  }

  lemma HasUidConcat(a: seq<Req>, b: seq<Req>, uid: U64)
    ensures HasUid(a + b, uid) <==> HasUid(a, uid) || HasUid(b, uid)
  {
    forall r | r in a || r in b
      ensures r in a + b
    {
    }
  }

  lemma QuietNodes(c: Crypto, k: ServKeys, sys: Sys, uid: U64, node: Node)
    requires NodesOk(c, k, sys)
    requires !NodeOf(sys, uid).pending.Putting? && !node.pending.Putting?
    requires NodeOk(c, k, sys.serv, uid, node) && PendingOk(c, k, sys.serv, uid, node)
    ensures NodesOk(c, k, SetNode(sys, uid, node))
  {
    hide NodeOk, PendingOk, Placed;
    var sys' := SetNode(sys, uid, node);
    assert Uncommitted(sys') == Uncommitted(sys) && Unanswered(sys') == Unanswered(sys);
    NodeFacts(c, k, sys, uid);
    QuietPlaced(sys.serv, Uncommitted(sys), Unanswered(sys), uid, NodeOf(sys, uid), node);
    forall v: U64
      ensures NodeOk(c, k, sys'.serv, v, NodeOf(sys', v)) && PendingOk(c, k, sys'.serv, v, NodeOf(sys', v))
      ensures Placed(sys'.serv, Uncommitted(sys'), Unanswered(sys'), v, NodeOf(sys', v))
    {
      NodeFacts(c, k, sys, v);
    }
  }

  /** A step of one client that neither joins nor leaves the queue. */
  lemma QuietStep(c: Crypto, k: ServKeys, sys: Sys, uid: U64, node: Node)
    requires SysInv(c, k, sys)
    requires !NodeOf(sys, uid).pending.Putting? && !node.pending.Putting?
    requires NodeOk(c, k, sys.serv, uid, node) && PendingOk(c, k, sys.serv, uid, node)
    ensures SysInv(c, k, SetNode(sys, uid, node))
  {
    hide ServInv, NodesOk, QueueOk, PhaseOk, NodeOk, PendingOk, NodeOf;
    QuietNodes(c, k, sys, uid, node);
    QuietQueue(c, k, sys, uid, node);
  }

  lemma QuietPlaced(serv: ServState, uncommitted: seq<Req>, unanswered: seq<Req>, uid: U64, node: Node, node': Node)
    requires Placed(serv, uncommitted, unanswered, uid, node)
    requires !node.pending.Putting? && !node'.pending.Putting?
    ensures Placed(serv, uncommitted, unanswered, uid, node')
  {
    hide HasUid, Versions;
  }

  lemma QuietQueue(c: Crypto, k: ServKeys, sys: Sys, uid: U64, node: Node)
    requires QueueOk(c, k, sys) && !NodeOf(sys, uid).pending.Putting?
    ensures QueueOk(c, k, SetNode(sys, uid, node))
  {
    hide Distinct;
    var sys' := SetNode(sys, uid, node);
    forall r | r in Unanswered(sys') + Uncommitted(sys')
      ensures NodeOf(sys', r.uid).pending == Putting(r.pk)
    {
      assert r in Unanswered(sys) + Uncommitted(sys);
      assert NodeOf(sys, r.uid).pending == Putting(r.pk);
    }
  }

  // ---- calls, and their service by the read-only calls of the server

  lemma CallPutNode(c: Crypto, k: ServKeys, serv: ServState, uncommitted: seq<Req>, unanswered: seq<Req>, req: Req,
                    node: Node)
    requires NodeOk(c, k, serv, req.uid, node) && Placed(serv, uncommitted, unanswered, req.uid, node)
             && node.pending.Ready?
    ensures var node' := node.(pending := Putting(req.pk));
            && NodeOk(c, k, serv, req.uid, node') && PendingOk(c, k, serv, req.uid, node')
            && Placed(serv, uncommitted + [req], unanswered, req.uid, node')
  {
    hide HasUid, ClientAgrees, Records, AnswerOk, Versions;
  }

  lemma OtherPlaced(serv: ServState, uncommitted: seq<Req>, unanswered: seq<Req>, req: Req, uid: U64, node: Node)
    requires Placed(serv, uncommitted, unanswered, uid, node) && uid != req.uid
    ensures Placed(serv, uncommitted + [req], unanswered, uid, node)
  {
    hide HasUid, Versions;
    HasUidAppend(uncommitted, req);
  }

  lemma CallPutNodes(c: Crypto, k: ServKeys, sys: Sys, req: Req)
    requires NodesOk(c, k, sys) && NodeOf(sys, req.uid).pending.Ready?
    ensures NodesOk(c, k, AfterCallPut(sys, req))
  {
    hide NodeOk, PendingOk, Placed;
    var sys' := AfterCallPut(sys, req);
    assert Uncommitted(sys') == Uncommitted(sys) + [req] && Unanswered(sys') == Unanswered(sys);
    forall v: U64
      ensures NodeOk(c, k, sys'.serv, v, NodeOf(sys', v)) && PendingOk(c, k, sys'.serv, v, NodeOf(sys', v))
      ensures Placed(sys'.serv, Uncommitted(sys'), Unanswered(sys'), v, NodeOf(sys', v))
    {
      NodeFacts(c, k, sys, v);
      if v == req.uid {
        CallPutNode(c, k, sys.serv, Uncommitted(sys), Unanswered(sys), req, NodeOf(sys, v));
      } else {
        OtherPlaced(sys.serv, Uncommitted(sys), Unanswered(sys), req, v, NodeOf(sys, v));
      }
    }
  }

  lemma CallPutKeeps(c: Crypto, k: ServKeys, sys: Sys, req: Req)
    requires SysInv(c, k, sys) && NodeOf(sys, req.uid).pending.Ready?
    ensures SysInv(c, k, AfterCallPut(sys, req))
  {
    hide ServInv, NodesOk, QueueOk, PhaseOk, NodeOf;
    CallPutNodes(c, k, sys, req);
    JoinQueue(c, k, sys, req);
  }

  lemma JoinQueue(c: Crypto, k: ServKeys, sys: Sys, req: Req)
    requires QueueOk(c, k, sys) && !NodeOf(sys, req.uid).pending.Putting?
    ensures QueueOk(c, k, AfterCallPut(sys, req))
  {
    hide Distinct;
    var sys' := AfterCallPut(sys, req);
    var line, line' := Unanswered(sys) + Uncommitted(sys), Unanswered(sys') + Uncommitted(sys');
    assert line' == line + [req];
    forall r | r in line
      ensures r.uid != req.uid
    {
      assert NodeOf(sys, r.uid).pending == Putting(r.pk);
    }
    DistinctAppend(line, req);
    forall r | r in line'
      ensures NodeOf(sys', r.uid).pending == Putting(r.pk)
    {
      assert r in line || r == req;
    }
  }

  lemma DistinctAppend(line: seq<Req>, req: Req)
    requires Distinct(line) && forall r | r in line :: r.uid != req.uid
    ensures Distinct(line + [req])
  {
  }

  /** Serving a Get puts an answer on the way that is right in the epoch of its digest. */
  lemma ServeGetKeeps(c: Crypto, k: ServKeys, sys: Sys, uid: U64)
    requires KeysOk(c, k) && SysInv(c, k, sys) && NodeOf(sys, uid).pending.Getting?
    ensures var node := NodeOf(sys, uid);
            SysInv(c, k, SetNode(sys, uid,
                node.(pending := GetBack(node.pending.target, ServGet(c, k, sys.serv, node.pending.target)))))
  {
    hide KeysOk, QueueOk, PhaseOk, NodesOk, Records, GetReplyOk, Registered, EpochOk, HistFor, LatestFor, BoundFor;
    var node := NodeOf(sys, uid);
    NodeFacts(c, k, sys, uid);
    GetAccepted(c, k, sys.serv, node.cli, node.pending.target);
    GetAnswer(c, k, sys.serv, node.pending.target);
    QuietStep(c, k, sys, uid,
        node.(pending := GetBack(node.pending.target, ServGet(c, k, sys.serv, node.pending.target))));
  }

  lemma ServeSelfMonKeeps(c: Crypto, k: ServKeys, sys: Sys, uid: U64)
    requires KeysOk(c, k) && SysInv(c, k, sys) && NodeOf(sys, uid).pending.Monitoring?
    ensures SysInv(c, k, SetNode(sys, uid, NodeOf(sys, uid).(pending := MonBack(ServSelfMon(c, k, sys.serv, uid)))))
  {
    hide KeysOk, QueueOk, PhaseOk, NodesOk, Records, SelfMonReplyOk, Registered, EpochOk, BoundFor;
    var node := NodeOf(sys, uid);
    NodeFacts(c, k, sys, uid);
    SelfMonAccepted(c, k, sys.serv, node.cli);
    QuietStep(c, k, sys, uid, node.(pending := MonBack(ServSelfMon(c, k, sys.serv, uid))));
  }

  // ---- returns

  lemma RecordAgrees(c: Crypto, k: ServKeys, serv: ServState, cli: CliState, e: U64)
    requires ServInv(c, k, serv) && ClientAgrees(cli, serv.hist) && e < |serv.hist|
    ensures ClientAgrees(Record(cli, DigOfEpoch(serv.hist, e)), serv.hist)
  {
    hide Registered, EpochOk;
  }

  lemma ReturnPut(c: Crypto, k: ServKeys, serv: ServState, uid: U64, node: Node)
    requires KeysOk(c, k) && ServInv(c, k, serv) && node.pending.PutBack?
    requires NodeOk(c, k, serv, uid, node) && PendingOk(c, k, serv, uid, node)
    ensures node.cli.nextVer + 1 < U64_BOUND
    ensures NodeOk(c, k, serv, uid, AfterReturn(c, k, node)) && AfterReturn(c, k, node).pending.Ready?
  {
    hide KeysOk, ServInv, PutReplyOk, CheckDig, Records, AnswerOk, Inv, Extends;
    var puts, ver := Versions(serv.log, uid), node.cli.nextVer;
    var r := node.pending.putReply.value;
    DigEpochOk(c, k, serv, node.cli, r.dig, puts[ver].epoch);
    StepKeeps(c, CliKeysOf(k), node.cli, PutOp(node.pending.pk, Some(r)));
    PutAdvances(c, CliKeysOf(k), node.cli, node.pending.pk, r);
    AppendKeepsRecords(node.hist, puts[..ver], puts[ver]);
    assert puts[..ver] + [puts[ver]] == puts[..ver + 1];
  }

  lemma DigEpochOk(c: Crypto, k: ServKeys, serv: ServState, cli: CliState, dig: SigDig, e: U64)
    requires KeysOk(c, k) && ServInv(c, k, serv) && ClientAgrees(cli, serv.hist)
    requires e < |serv.hist| && dig == DigOfEpoch(serv.hist, e)
    ensures CheckDig(c, k.sigPk, cli.seenDigs, dig).NoErr?
    ensures e + 1 < U64_BOUND && ClientAgrees(Record(cli, dig), serv.hist)
  {
    hide KeysOk, CheckDig, Registered, EpochOk;
    DigAccepted(c, k, serv, cli, e);
    RecordAgrees(c, k, serv, cli, e);
  }

  lemma ReturnGet(c: Crypto, k: ServKeys, serv: ServState, uid: U64, node: Node)
    requires KeysOk(c, k) && ServInv(c, k, serv) && node.pending.GetBack?
    requires NodeOk(c, k, serv, uid, node) && PendingOk(c, k, serv, uid, node)
    requires node.cli.nextVer + 1 < U64_BOUND
    ensures NodeOk(c, k, serv, uid, AfterReturn(c, k, node)) && AfterReturn(c, k, node).pending.Ready?
  {
    hide KeysOk, ServInv, GetReplyOk, CheckDig, ClientAgrees, Records, AnswerOk, Inv, Extends;
    DigEpochOk(c, k, serv, node.cli, node.pending.getReply.dig, node.pending.getReply.dig.epoch);
    StepKeeps(c, CliKeysOf(k), node.cli, GetOp(node.pending.target, Some(node.pending.getReply)));
  }

  lemma ReturnSelfMon(c: Crypto, k: ServKeys, serv: ServState, uid: U64, node: Node)
    requires KeysOk(c, k) && ServInv(c, k, serv) && node.pending.MonBack?
    requires NodeOk(c, k, serv, uid, node) && PendingOk(c, k, serv, uid, node)
    requires node.cli.nextVer + 1 < U64_BOUND
    ensures NodeOk(c, k, serv, uid, AfterReturn(c, k, node)) && AfterReturn(c, k, node).pending.Ready?
  {
    hide KeysOk, ServInv, NonMembOk, CheckDig, ClientAgrees, Records, AnswerOk, Inv, Extends;
    var r := node.pending.monReply;
    DigEpochOk(c, k, serv, node.cli, r.dig, r.dig.epoch);
    StepKeeps(c, CliKeysOf(k), node.cli, SelfMonOp(Some(r)));
    ExtendKeepsRecords(node.hist, Versions(serv.log, uid)[..node.cli.nextVer], r.dig.epoch + 1);
  }

  lemma VersionsFit(c: Crypto, k: ServKeys, serv: ServState, uid: U64)
    requires ServInv(c, k, serv)
    ensures |Versions(serv.log, uid)| <= |serv.hist|
  {
    hide UidInMap, EpochOk;
    UserFacts(c, k, serv, uid);
  }

  lemma ReturnKeeps(c: Crypto, k: ServKeys, sys: Sys, uid: U64)
    requires KeysOk(c, k) && SysInv(c, k, sys) && |sys.serv.hist| + 1 < U64_BOUND
    ensures SysInv(c, k, Next(c, k, sys, Return(uid)))
  {
    hide KeysOk, ServInv, QueueOk, PhaseOk, NodesOk, NodeOk, PendingOk;
    var node := NodeOf(sys, uid);
    NodeFacts(c, k, sys, uid);
    VersionsFit(c, k, sys.serv, uid);
    NodeCounters(c, k, sys.serv, uid, node);
    match node.pending
    case PutBack(_, _) =>
      ReturnPut(c, k, sys.serv, uid, node);
      ReadyPending(c, k, sys.serv, uid, AfterReturn(c, k, node));
      QuietStep(c, k, sys, uid, AfterReturn(c, k, node));
    case GetBack(_, _) =>
      ReturnGet(c, k, sys.serv, uid, node);
      ReadyPending(c, k, sys.serv, uid, AfterReturn(c, k, node));
      QuietStep(c, k, sys, uid, AfterReturn(c, k, node));
    case MonBack(_) =>
      ReturnSelfMon(c, k, sys.serv, uid, node);
      ReadyPending(c, k, sys.serv, uid, AfterReturn(c, k, node));
      QuietStep(c, k, sys, uid, AfterReturn(c, k, node));
    case _ => SameNode(c, k, sys, uid);
  }

  lemma ReadyPending(c: Crypto, k: ServKeys, serv: ServState, uid: U64, node: Node)
    requires node.pending.Ready?
    ensures PendingOk(c, k, serv, uid, node)
  {
  }

  lemma NodeCounters(c: Crypto, k: ServKeys, serv: ServState, uid: U64, node: Node)
    requires NodeOk(c, k, serv, uid, node)
    ensures node.cli.nextVer <= |Versions(serv.log, uid)| && |node.hist| <= node.cli.nextEpoch
  {
    hide ClientAgrees, Records, AnswerOk;
  }

  lemma SameNode(c: Crypto, k: ServKeys, sys: Sys, uid: U64)
    requires SysInv(c, k, sys)
    ensures SysInv(c, k, SetNode(sys, uid, NodeOf(sys, uid)))
  {
    hide NodesOk, ServInv, QueueOk, PhaseOk;
    var sys' := SetNode(sys, uid, NodeOf(sys, uid));
    SameNodes(c, k, sys, sys');
  }

  // ---- the worker

  lemma TakeKeeps(c: Crypto, k: ServKeys, sys: Sys)
    requires SysInv(c, k, sys) && sys.phase.Waiting?
    ensures SysInv(c, k, sys.(phase := Mapping(sys.queue, []), queue := []))
  {
    hide NodesOk, ServInv;
    var sys' := sys.(phase := Mapping(sys.queue, []), queue := []);
    assert Uncommitted(sys') == sys.queue == Uncommitted(sys) && Unanswered(sys') == [] == Unanswered(sys);
    SameNodes(c, k, sys, sys');
  }

  lemma Map0Keeps(c: Crypto, k: ServKeys, sys: Sys)
    requires SysInv(c, k, sys) && sys.phase.Mapping? && |sys.phase.outs| < |sys.phase.batch|
    requires 0 < |sys.serv.hist| && |sys.serv.hist| + 1 < U64_BOUND
    ensures SysInv(c, k, Next(c, k, sys, Map0))
  {
    hide NodesOk, ServInv, Distinct, Mapper0Of, HasUid;
    var Mapping(batch, outs) := sys.phase;
    DistinctPrefix(batch, |outs|);
    var sys' := sys.(phase := Mapping(batch, outs + [Mapper0Of(c, k, sys.serv, batch[|outs|])]));
    SameNodes(c, k, sys, sys');
  }

  lemma {:induction false} EntryAtStable(puts: seq<PutRec>, next: seq<PutRec>, e: nat)
    requires |next| <= 1 && (next != [] ==> next[0].epoch > e)
    ensures EntryAt(puts + next, e) == EntryAt(puts, e)
  {
    if next == [] {
      assert puts + next == puts;
    } else {
      assert (puts + next)[..|puts|] == puts;
    }
  }

  /** The commit appends one signed epoch, and to each uid of the batch one version. */
  ghost predicate Committing(c: Crypto, k: ServKeys, serv: ServState, serv': ServState, batch: seq<Req>) {
    && 0 < |serv.hist| < U64_BOUND && |serv'.hist| == |serv.hist| + 1
    && serv'.hist[..|serv.hist|] == serv.hist
    && forall uid: U64 :: Versions(serv'.log, uid)
                          == Versions(serv.log, uid) + NewVersion(c, k, |serv.hist|, serv.users, batch, uid)
  }

  lemma AfterBatchCommits(c: Crypto, k: ServKeys, serv: ServState, batch: seq<Req>)
    requires 0 < |serv.hist| && |serv.hist| + 1 < U64_BOUND
    ensures Committing(c, k, serv, AfterBatch(c, k, serv, batch), batch)
  {
    hide ApplyAll, Accepted, NewVersion, Versions, ToU64;
    forall uid: U64
      ensures Versions(AfterBatch(c, k, serv, batch).log, uid)
              == Versions(serv.log, uid) + NewVersion(c, k, |serv.hist|, serv.users, batch, uid)
    {
      BatchVersions(c, k, |serv.hist|, StartBatch(serv), batch, uid);
    }
  }

  lemma AnswerStable(c: Crypto, k: ServKeys, serv: ServState, serv': ServState, batch: seq<Req>, a: Answered)
    requires Committing(c, k, serv, serv', batch) && AnswerOk(serv.log, |serv.hist|, a)
    ensures AnswerOk(serv'.log, |serv'.hist|, a)
  {
    hide OpenFor, Versions, HasUid;
    var next := NewVersion(c, k, |serv.hist|, serv.users, batch, a.target);
    assert Versions(serv'.log, a.target) == Versions(serv.log, a.target) + next;
    EntryAtStable(Versions(serv.log, a.target), next, a.epoch);
  }

  /** A node that waits for no put is not touched by the commit. */
  lemma NodeAfterCommit(c: Crypto, k: ServKeys, serv: ServState, serv': ServState, batch: seq<Req>, uid: U64,
                        node: Node)
    requires Committing(c, k, serv, serv', batch)
    requires NodeOk(c, k, serv, uid, node) && PendingOk(c, k, serv, uid, node)
    requires HasUid(batch, uid) ==>
               node.pending == Putting(FirstReq(batch, uid).pk) && |Versions(serv.log, uid)| == node.cli.nextVer
    ensures NodeOk(c, k, serv', uid, node) && PendingOk(c, k, serv', uid, node)
    ensures HasUid(batch, uid) ==>
              var puts' := Versions(serv'.log, uid);
              && |puts'| == node.cli.nextVer + 1 && puts'[node.cli.nextVer].epoch == |serv.hist|
              && puts'[node.cli.nextVer].open.val == node.pending.pk
    ensures !HasUid(batch, uid) ==> Versions(serv'.log, uid) == Versions(serv.log, uid)
  {
    hide Versions, HasUid, FirstReq, AnswerOk, PutReplyOk, GetReplyOk, SelfMonReplyOk, Records, CommitRand, Inv;
    var puts, ver := Versions(serv.log, uid), node.cli.nextVer;
    var puts' := Versions(serv'.log, uid);
    assert puts' == puts + NewVersion(c, k, |serv.hist|, serv.users, batch, uid);
    assert puts'[..ver] == puts[..ver];
    assert forall e: nat | e < |serv.hist| :: serv'.hist[e] == serv.hist[e];
    forall a | a in node.answers
      ensures AnswerOk(serv'.log, |serv'.hist|, a)
    {
      AnswerStable(c, k, serv, serv', batch, a);
    }
    if node.pending.GetBack? {
      var r := node.pending.getReply;
      AnswerStable(c, k, serv, serv', batch,
          Answered(node.pending.target, r.dig.epoch, HistEntry(r.isReg, r.latest.pkOpen.val)));
    }
  }

  lemma NodePlaced(c: Crypto, k: ServKeys, sys: Sys, sys': Sys, uid: U64)
    requires SysInv(c, k, sys) && sys.phase.Mapping?
    requires Committing(c, k, sys.serv, sys'.serv, sys.phase.batch)
    requires sys'.nodes == sys.nodes && sys'.queue == sys.queue
             && sys'.phase == Committed(sys.phase.batch, sys.phase.outs, 0)
    ensures var node := NodeOf(sys, uid);
            HasUid(sys.phase.batch, uid) ==> node.pending == Putting(FirstReq(sys.phase.batch, uid).pk)
                                             && |Versions(sys.serv.log, uid)| == node.cli.nextVer
    ensures NodeOk(c, k, sys'.serv, uid, NodeOf(sys', uid)) && PendingOk(c, k, sys'.serv, uid, NodeOf(sys', uid))
    ensures Placed(sys'.serv, Uncommitted(sys'), Unanswered(sys'), uid, NodeOf(sys', uid))
  {
    hide ServInv, Distinct, Versions, FirstReq, Records, AnswerOk, ClientAgrees, PendingOk, PhaseOk, Committing, HasUid;
    var node, batch := NodeOf(sys, uid), sys.phase.batch;
    NodeFacts(c, k, sys, uid);
    HasUidConcat(batch, sys.queue, uid);
    NoUid(uid);
    assert Unanswered(sys) == [] && Uncommitted(sys) == batch + sys.queue;
    assert Unanswered(sys') == batch && Uncommitted(sys') == [] + sys.queue == sys.queue;
    if HasUid(batch, uid) {
      BatchMember(c, k, sys, uid);
    }
    NodeAfterCommit(c, k, sys.serv, sys'.serv, batch, uid, node);
    CommittedHist(c, k, sys.serv, sys'.serv, batch);
    if HasUid(batch, uid) && HasUid(sys.queue, uid) {
      BatchNotQueued(c, k, sys, uid);
    }
  }

  lemma CommittedHist(c: Crypto, k: ServKeys, serv: ServState, serv': ServState, batch: seq<Req>)
    requires Committing(c, k, serv, serv', batch)
    ensures |serv'.hist| == |serv.hist| + 1
  {
    hide Versions, NewVersion;
  }

  lemma BatchMember(c: Crypto, k: ServKeys, sys: Sys, uid: U64)
    requires QueueOk(c, k, sys) && sys.phase.Mapping? && HasUid(sys.phase.batch, uid)
    ensures NodeOf(sys, uid).pending == Putting(FirstReq(sys.phase.batch, uid).pk)
  {
    var r := FirstReq(sys.phase.batch, uid);
    assert r in Unanswered(sys) + Uncommitted(sys);
  }

  lemma DistinctSplit(a: seq<Req>, b: seq<Req>, uid: U64)
    requires Distinct(a + b) && HasUid(a, uid)
    ensures !HasUid(b, uid)
  {
    var i: nat :| i < |a| && a[i].uid == uid;
    forall j: nat | j < |b|
      ensures b[j].uid != uid
    {
      assert (a + b)[i].uid != (a + b)[|a| + j].uid;
    }
  }

  lemma BatchNotQueued(c: Crypto, k: ServKeys, sys: Sys, uid: U64)
    requires QueueOk(c, k, sys) && sys.phase.Mapping? && HasUid(sys.phase.batch, uid)
    ensures !HasUid(sys.queue, uid)
  {
    hide Distinct, HasUid;
    assert Unanswered(sys) + Uncommitted(sys) == sys.phase.batch + sys.queue;
    DistinctSplit(sys.phase.batch, sys.queue, uid);
  }

  lemma CommittedOuts(c: Crypto, k: ServKeys, sys: Sys, sys': Sys)
    requires SysInv(c, k, sys) && sys.phase.Mapping? && |sys.phase.outs| == |sys.phase.batch|
    requires Committing(c, k, sys.serv, sys'.serv, sys.phase.batch) && |sys.serv.hist| + 1 < U64_BOUND
    requires sys'.phase == Committed(sys.phase.batch, sys.phase.outs, 0)
    ensures PhaseOk(c, k, sys'.serv, sys'.phase)
  {
    hide ServInv, NodesOk, Versions, Mapper0For, ToU64, QueueOk, OpenFor, HasUid, FirstReq;
    var batch, outs := sys.phase.batch, sys.phase.outs;
    forall i: nat | i < |outs|
      ensures PreparedOk(c, k, sys'.serv, batch[i], outs[i])
    {
      var uid := batch[i].uid;
      InBatch(batch, i);
      UserVersions(c, k, sys.serv, uid);
      assert Versions(sys'.serv.log, uid)
             == Versions(sys.serv.log, uid) + NewVersion(c, k, |sys.serv.hist|, sys.serv.users, batch, uid);
    }
  }

  lemma InBatch(batch: seq<Req>, i: nat)
    requires i < |batch| && Distinct(batch)
    ensures HasUid(batch, batch[i].uid)
  {
    assert batch[i] in batch;
  }

  lemma UserVersions(c: Crypto, k: ServKeys, serv: ServState, uid: U64)
    requires ServInv(c, k, serv)
    ensures UserOf(serv.users, uid).numVers == |Versions(serv.log, uid)| <= |serv.hist|
  {
    hide UidInMap, EpochOk;
    UserFacts(c, k, serv, uid);
  }

  lemma CommittedQueue(c: Crypto, k: ServKeys, sys: Sys, sys': Sys)
    requires QueueOk(c, k, sys) && sys.phase.Mapping?
    requires sys'.nodes == sys.nodes && sys'.queue == sys.queue
             && sys'.phase == Committed(sys.phase.batch, sys.phase.outs, 0)
    ensures QueueOk(c, k, sys')
  {
    hide Distinct;
    assert Unanswered(sys') + Uncommitted(sys') == sys.phase.batch + ([] + sys.queue)
           == Unanswered(sys) + Uncommitted(sys);
  }

  lemma CommitKeeps(c: Crypto, k: ServKeys, sys: Sys)
    requires KeysOk(c, k) && SysInv(c, k, sys) && |sys.serv.hist| + 1 < U64_BOUND
    requires sys.phase.Mapping? && |sys.phase.outs| == |sys.phase.batch|
    ensures SysInv(c, k, Next(c, k, sys, LockedCommit))
  {
    hide LabelsInjective, ServInv, QueueOk, NodeOk, PendingOk, Placed, Committing, CommitOuts, AfterBatch, Mapper0Of;
    hide Distinct;
    var batch, outs := sys.phase.batch, sys.phase.outs;
    CommitIsAfterBatch(c, k, sys.serv, batch, outs);
    HistBounds(c, k, sys.serv);
    AfterBatchCommits(c, k, sys.serv, batch);
    CommitKeepsInv(c, k, sys.serv, batch);
    var sys' := Next(c, k, sys, LockedCommit);
    forall uid: U64
      ensures NodeOk(c, k, sys'.serv, uid, NodeOf(sys', uid)) && PendingOk(c, k, sys'.serv, uid, NodeOf(sys', uid))
      ensures Placed(sys'.serv, Uncommitted(sys'), Unanswered(sys'), uid, NodeOf(sys', uid))
    {
      NodePlaced(c, k, sys, sys', uid);
    }
    CommittedOuts(c, k, sys, sys');
    CommittedQueue(c, k, sys, sys');
  }

  lemma HistBounds(c: Crypto, k: ServKeys, serv: ServState)
    requires ServInv(c, k, serv)
    ensures 0 < |serv.hist| < U64_BOUND
  {
    hide Registered, EpochOk;
  }

  // ---- the answers of the worker

  lemma DistinctPrefix(reqs: seq<Req>, i: nat)
    requires Distinct(reqs) && i < |reqs|
    ensures !HasUid(reqs[..i], reqs[i].uid) && !HasUid(reqs[i + 1..], reqs[i].uid)
  {
  }

  /** The answer that the worker hands out now will be accepted by its client. */
  lemma FinishedReply(c: Crypto, k: ServKeys, sys: Sys)
    requires KeysOk(c, k) && SysInv(c, k, sys) && |sys.serv.hist| + 1 < U64_BOUND
    requires sys.phase.Committed? && sys.phase.done < |sys.phase.batch|
    ensures |sys.phase.outs| == |sys.phase.batch|
    ensures var Committed(batch, outs, done) := sys.phase;
            var req, node := batch[done], NodeOf(sys, batch[done].uid);
            && !HasUid(batch[..done], req.uid) && node.pending == Putting(req.pk)
            && var node' := node.(pending := PutBack(req.pk, ReplyOf(Answer(Mapper1For(c, sys.serv, outs[done])))));
               NodeOk(c, k, sys.serv, req.uid, node') && PendingOk(c, k, sys.serv, req.uid, node')
  {
    hide KeysOk, ServInv, HasUid, NodeOk, PendingOk, PreparedOk, NodesOk, QueueOk, Uncommitted, Unanswered;
    hide Mapper1For, Versions;
    var Committed(batch, outs, done) := sys.phase;
    DistinctPrefix(batch, done);
    NodeFacts(c, k, sys, batch[done].uid);
    FirstUnanswered(c, k, sys);
    AnsweredNode(c, k, sys.serv, Uncommitted(sys), Unanswered(sys), batch[done], outs[done],
        NodeOf(sys, batch[done].uid));
  }

  lemma AnsweredNode(c: Crypto, k: ServKeys, serv: ServState, uncommitted: seq<Req>, unanswered: seq<Req>, req: Req,
                     out: Mapper0Out, node: Node)
    requires KeysOk(c, k) && ServInv(c, k, serv) && |serv.hist| + 1 < U64_BOUND && PreparedOk(c, k, serv, req, out)
    requires NodeOk(c, k, serv, req.uid, node) && Placed(serv, uncommitted, unanswered, req.uid, node)
    requires HasUid(unanswered, req.uid) && node.pending == Putting(req.pk)
    ensures var node' := node.(pending := PutBack(req.pk, ReplyOf(Answer(Mapper1For(c, serv, out)))));
            NodeOk(c, k, serv, req.uid, node') && PendingOk(c, k, serv, req.uid, node')
  {
    hide KeysOk, ServInv, HasUid, Records, AnswerOk, PutReplyOk, Mapper0For, Versions, ProveFor, ClientAgrees;
    UserVersions(c, k, serv, req.uid);
    LatestDig(c, k, serv);
    PutAccepted(c, k, serv, node.cli, req.pk);
  }

  lemma FirstUnanswered(c: Crypto, k: ServKeys, sys: Sys)
    requires QueueOk(c, k, sys) && sys.phase.Committed? && sys.phase.done < |sys.phase.batch|
    ensures var req := sys.phase.batch[sys.phase.done];
            HasUid(Unanswered(sys), req.uid) && NodeOf(sys, req.uid).pending == Putting(req.pk)
  {
    var req := sys.phase.batch[sys.phase.done];
    assert Unanswered(sys)[0] == req && req in Unanswered(sys) + Uncommitted(sys);
  }

  lemma UnansweredSplit(sys: Sys, sys': Sys)
    requires sys.phase.Committed? && sys.phase.done < |sys.phase.batch|
    requires sys'.phase == Committed(sys.phase.batch, sys.phase.outs, sys.phase.done + 1) && sys'.queue == sys.queue
    ensures Unanswered(sys) == [sys.phase.batch[sys.phase.done]] + Unanswered(sys')
            && Uncommitted(sys') == Uncommitted(sys)
  {
  }

  lemma FinishedQueue(c: Crypto, k: ServKeys, sys: Sys, sys': Sys, node: Node)
    requires QueueOk(c, k, sys) && sys.phase.Committed? && sys.phase.done < |sys.phase.batch|
    requires sys' == SetNode(sys, sys.phase.batch[sys.phase.done].uid, node)
                     .(phase := Committed(sys.phase.batch, sys.phase.outs, sys.phase.done + 1))
    ensures QueueOk(c, k, sys')
    ensures var uid := sys.phase.batch[sys.phase.done].uid;
            !HasUid(Unanswered(sys'), uid) && !HasUid(Uncommitted(sys'), uid)
  {
    hide HasUid;
    var req := sys.phase.batch[sys.phase.done];
    UnansweredSplit(sys, sys');
    var line, line' := Unanswered(sys) + Uncommitted(sys), Unanswered(sys') + Uncommitted(sys');
    assert line == [req] + line';
    OneUid(req);
    DistinctSplit([req], line', req.uid);
    HasUidConcat(Unanswered(sys'), Uncommitted(sys'), req.uid);
    forall i: nat, j: nat | i < j < |line'|
      ensures line'[i].uid != line'[j].uid
    {
      assert line[i + 1].uid != line[j + 1].uid;
    }
    forall r | r in line'
      ensures NodeOf(sys', r.uid).pending == Putting(r.pk)
    {
      assert r in line;
      assert NodeOf(sys, r.uid).pending == Putting(r.pk);
      NotHasUid(line', req.uid, r);
    }
  }

  lemma OneUid(req: Req)
    ensures HasUid([req], req.uid)
  {
    assert req in [req];
  }

  lemma NotHasUid(reqs: seq<Req>, uid: U64, r: Req)
    requires !HasUid(reqs, uid) && r in reqs
    ensures r.uid != uid
  {
  }

  lemma FinishKeeps(c: Crypto, k: ServKeys, sys: Sys)
    requires KeysOk(c, k) && SysInv(c, k, sys) && |sys.serv.hist| + 1 < U64_BOUND && 0 < |sys.serv.hist|
    requires sys.phase.Committed? && sys.phase.done < |sys.phase.batch|
    ensures SysInv(c, k, Next(c, k, sys, Finish))
  {
    hide KeysOk, ServInv, HasUid, NodeOk, PendingOk, Mapper0For, Mapper1For, QueueOk, Versions, Uncommitted;
    hide Unanswered, Distinct;
    FinishedReply(c, k, sys);
    var Committed(batch, outs, done) := sys.phase;
    var req, sys' := batch[done], Next(c, k, sys, Finish);
    var reply := ReplyOf(Answer(Mapper1For(c, sys.serv, outs[done])));
    var node' := NodeOf(sys, req.uid).(pending := PutBack(req.pk, reply));
    assert sys' == SetNode(sys, req.uid, node').(phase := Committed(batch, outs, done + 1));
    FinishedQueue(c, k, sys, sys', node');
    UnansweredSplit(sys, sys');
    forall v: U64
      ensures NodeOk(c, k, sys'.serv, v, NodeOf(sys', v)) && PendingOk(c, k, sys'.serv, v, NodeOf(sys', v))
      ensures Placed(sys'.serv, Uncommitted(sys'), Unanswered(sys'), v, NodeOf(sys', v))
    {
      NodeFacts(c, k, sys, v);
      HasUidConcat([req], Unanswered(sys'), v);
      OneReqUid(req, v);
    }
  }

  lemma OneReqUid(req: Req, uid: U64)
    ensures HasUid([req], uid) <==> req.uid == uid
  {
    assert req in [req];
  }

  lemma BatchDone(c: Crypto, k: ServKeys, sys: Sys)
    requires SysInv(c, k, sys) && sys.phase.Committed? && sys.phase.done >= |sys.phase.batch|
    ensures SysInv(c, k, sys.(phase := Waiting))
  {
    hide NodesOk, ServInv, Mapper0For, Distinct;
    var sys' := sys.(phase := Waiting);
    assert Unanswered(sys) == Unanswered(sys') == [] && Uncommitted(sys') == Uncommitted(sys);
    SameNodes(c, k, sys, sys');
  }

  // ---- every run

  /** Whatever happens next, the system invariant is kept: in particular no call ever fails. */
  lemma NextKeeps(c: Crypto, k: ServKeys, sys: Sys, ev: Event)
    requires KeysOk(c, k) && SysInv(c, k, sys) && 0 < |sys.serv.hist| && |sys.serv.hist| + 1 < U64_BOUND
    ensures SysInv(c, k, Next(c, k, sys, ev))
  {
    hide KeysOk, SysInv, AfterReturn;
    match ev
    case CallPut(uid, pk) =>
      if NodeOf(sys, uid).pending.Ready? {
        CallPutKeeps(c, k, sys, Req(uid, pk));
      }
    case CallGet(uid, target) =>
      if NodeOf(sys, uid).pending.Ready? {
        CallKeeps(c, k, sys, uid, Getting(target));
      }
    case CallSelfMon(uid) =>
      if NodeOf(sys, uid).pending.Ready? {
        CallKeeps(c, k, sys, uid, Monitoring);
      }
    case Take =>
      if sys.phase.Waiting? {
        TakeKeeps(c, k, sys);
      }
    case Map0 =>
      if sys.phase.Mapping? && |sys.phase.outs| < |sys.phase.batch| {
        Map0Keeps(c, k, sys);
      }
    case LockedCommit =>
      if sys.phase.Mapping? && |sys.phase.outs| == |sys.phase.batch| {
        CommitKeeps(c, k, sys);
      }
    case Finish =>
      if sys.phase.Committed? {
        CommittedLengths(c, k, sys);
        if sys.phase.done < |sys.phase.batch| {
          FinishKeeps(c, k, sys);
        } else {
          BatchDone(c, k, sys);
        }
      }
    case ServeGet(uid) =>
      if NodeOf(sys, uid).pending.Getting? {
        ServeGetKeeps(c, k, sys, uid);
      }
    case ServeSelfMon(uid) =>
      if NodeOf(sys, uid).pending.Monitoring? {
        ServeSelfMonKeeps(c, k, sys, uid);
      }
    case Return(uid) => ReturnKeeps(c, k, sys, uid);
  }

  lemma CommittedLengths(c: Crypto, k: ServKeys, sys: Sys)
    requires SysInv(c, k, sys) && sys.phase.Committed?
    ensures |sys.phase.outs| == |sys.phase.batch|
  {
    hide ServInv, QueueOk, NodesOk, Mapper0For;
  }

  lemma CallKeeps(c: Crypto, k: ServKeys, sys: Sys, uid: U64, pending: Pending)
    requires SysInv(c, k, sys) && NodeOf(sys, uid).pending.Ready? && (pending.Getting? || pending.Monitoring?)
    ensures SysInv(c, k, SetNode(sys, uid, NodeOf(sys, uid).(pending := pending)))
  {
    hide ServInv, QueueOk, PhaseOk, NodesOk, ClientAgrees, Records, AnswerOk;
    NodeFacts(c, k, sys, uid);
    QuietStep(c, k, sys, uid, NodeOf(sys, uid).(pending := pending));
  }

  /** The state after any sequence of events. */
  ghost function RunSys(c: Crypto, k: ServKeys, events: seq<Event>): (sys: Sys)
    requires |events| + 2 < U64_BOUND
    ensures 0 < |sys.serv.hist| <= |events| + 1
    decreases |events|
  {
    if events == [] then InitSys(c, k)
    else
      var sys := RunSys(c, k, events[..|events| - 1]);
      NextLength(c, k, sys, events[|events| - 1]);
      Next(c, k, sys, events[|events| - 1])
  }

  lemma NextLength(c: Crypto, k: ServKeys, sys: Sys, ev: Event)
    requires 0 < |sys.serv.hist| && |sys.serv.hist| + 1 < U64_BOUND
    ensures |sys.serv.hist| <= |Next(c, k, sys, ev).serv.hist| <= |sys.serv.hist| + 1
  {
    hide AfterReturn, Mapper0Of, Mapper1For, ServGet, ServSelfMon, NodeOf;
  }

  lemma {:induction false} RunSysInv(c: Crypto, k: ServKeys, events: seq<Event>)
    requires KeysOk(c, k) && |events| + 2 < U64_BOUND
    ensures SysInv(c, k, RunSys(c, k, events))
  {
    hide KeysOk, SysInv, Next;
    if events == [] {
      InitSysInv(c, k);
    } else {
      RunSysInv(c, k, events[..|events| - 1]);
      NextKeeps(c, k, RunSys(c, k, events[..|events| - 1]), events[|events| - 1]);
    }
  }

  /** With an honest server no call of any client ever returns an error, in any interleaving. */
  lemma NoCallFails(c: Crypto, k: ServKeys, events: seq<Event>, uid: U64)
    requires KeysOk(c, k) && |events| + 2 < U64_BOUND
    ensures !NodeOf(RunSys(c, k, events), uid).failed
  {
    hide KeysOk, ServInv, QueueOk, PhaseOk, NodesOk, ClientAgrees, Records, AnswerOk;
    RunSysInv(c, k, events);
    NodeFacts(c, k, RunSys(c, k, events), uid);
  }

  /** In no run is there evidence against the honest server that checks out. */
  lemma NoEvidenceEver(c: Crypto, k: ServKeys, events: seq<Event>, evid: Evid)
    requires KeysOk(c, k) && |events| + 2 < U64_BOUND
    requires NoForgery(c, k.sigPk, SignedDigs(ServDigs(RunSys(c, k, events).serv)), {evid.sigDig0, evid.sigDig1})
    ensures !EvidOk(c, evid, k.sigPk)
  {
    hide KeysOk, ServInv, QueueOk, PhaseOk, NodesOk, RunSys, NoForgery, EvidOk;
    RunSysInv(c, k, events);
    ServerNeverFramed(c, k, RunSys(c, k, events).serv, evid);
  }

  /** With auditors that replay the honest server, no audit of any client fails either. */
  lemma NoAuditFails(c: Crypto, k: ServKeys, events: seq<Event>, uid: U64, adtrSk: Bytes, adtrPk: Bytes,
                     adtr: U64 -> AdtrEpochInfo)
    requires KeysOk(c, k) && |events| + 2 < U64_BOUND && SigKeyPair(c, adtrSk, adtrPk)
    requires var serv := RunSys(c, k, events).serv; AnswersFrom(adtr, Auditor.Run(c, adtrSk, Replay(serv, |serv.hist|)))
    ensures AuditOk(c, CliKeysOf(k), NodeOf(RunSys(c, k, events), uid).cli, adtrPk, adtr)
  {
    hide KeysOk, ServInv, QueueOk, PhaseOk, NodesOk, ClientAgrees, Records, AnswerOk, RunSys, AuditOk, SigKeyPair;
    hide Inv, AnswersFrom;
    var sys := RunSys(c, k, events);
    RunSysInv(c, k, events);
    NodeFacts(c, k, sys, uid);
    HonestAuditPasses(c, k, sys.serv, NodeOf(sys, uid).cli, adtrSk, adtrPk, adtr);
  }

  /** Without any auditor: whatever Bob got about Alice's key, if Alice's last put or self-monitoring
      returned this epoch or a later one, it is what her history has at that epoch. Any two clients, any calls of
      either, any interleaving with each other and with the worker. */
  lemma BobGetsAlicesKeyFromHonestServer(c: Crypto, k: ServKeys, events: seq<Event>, alice: U64, bob: U64, a: Answered)
    requires KeysOk(c, k) && |events| + 2 < U64_BOUND
    requires a in NodeOf(RunSys(c, k, events), bob).answers && a.target == alice
    requires var last := NodeOf(RunSys(c, k, events), alice).lastEpoch; last.Some? && a.epoch <= last.value
    ensures a.epoch < |NodeOf(RunSys(c, k, events), alice).hist|
    ensures var entry := NodeOf(RunSys(c, k, events), alice).hist[a.epoch];
            entry.isReg == a.entry.isReg && (entry.isReg ==> entry.pk == a.entry.pk)
  {
    hide KeysOk, ServInv, QueueOk, PhaseOk, NodesOk, ClientAgrees, RunSys;
    var sys := RunSys(c, k, events);
    RunSysInv(c, k, events);
    NodeFacts(c, k, sys, bob);
    NodeFacts(c, k, sys, alice);
    var node := NodeOf(sys, alice);
    var puts, ver := Versions(sys.serv.log, alice), node.cli.nextVer;
    assert puts == puts[..ver] + puts[ver..];
    EntryAtStable(puts[..ver], puts[ver..], a.epoch);
  }
}
