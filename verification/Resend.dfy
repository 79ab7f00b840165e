/** What if a put is delivered more than once? kt/rpc.go sends it again when a call fails, and over a
    network that goes on after a failure the server may take both copies. Exactly when the client's
    calls still succeed. */
module KtResend {
  import opened Bytes
  import opened MerkleTrie
  import opened MerkleProofs
  import opened KtTypes
  import opened KtClient
  import opened KtServer
  import opened KtServerProofs
  import opened KtServerImpl
  import opened KtPutReply
  import Security

  // ---- a client that is behind

  /** What is hashed to check a bound, and to compute the server's digest. */
  ghost predicate HashedBound(c: Crypto, k: ServKeys, m: KeyMap, uid: U64, ver: U64, bound: NonMemb, q: set<Bytes>) {
    && Security.HashedNonMemb(c, CliKeysOf(k), uid, ver, bound, q) && Preimages(c.hash, TrieOf(m)) <= q
    && CollisionFree(c.hash, q)
  }

  /** No bound is accepted for a version that the server has. */
  lemma BoundRejected(c: Crypto, k: ServKeys, st: ServState, uid: U64, ver: U64, bound: NonMemb, q: set<Bytes>)
    requires ServInv(c, k, st) && ver < |Versions(st.log, uid)|
    requires HashedBound(c, k, KeyMapOf(st), uid, ver, bound, q)
    ensures !NonMembOk(c, k.vrfPk, uid, ver, MapDigest(c.hash, KeyMapOf(st)), bound)
  {
    hide NonMembOk, CompMapVal, MapLabel, MapDigest, UserOk;
    UserFacts(c, k, st, uid);
    VersionInMap(c, k, KeyMapOf(st), Versions(st.log, uid), uid, ver);
    if NonMembOk(c, k.vrfPk, uid, ver, MapDigest(c.hash, KeyMapOf(st)), bound) {
      Security.NonMembTruth(c, CliKeysOf(k), KeyMapOf(st), uid, ver, bound, MapDigest(c.hash, KeyMapOf(st)), q);
    }
  }

  /** Self-monitoring succeeds if and only if the client has counted all versions. */
  lemma SelfMonAcceptedIff(c: Crypto, k: ServKeys, st: ServState, cli: CliState, q: set<Bytes>)
    requires KeysOk(c, k) && ServInv(c, k, st) && ClientAgrees(cli, st.hist)
    requires cli.nextVer <= |Versions(st.log, cli.uid)|
    requires HashedBound(c, k, KeyMapOf(st), cli.uid, cli.nextVer, ServSelfMon(c, k, st, cli.uid).bound, q)
    ensures SelfMonReplyOk(c, CliKeysOf(k), cli, ServSelfMon(c, k, st, cli.uid))
            <==> |Versions(st.log, cli.uid)| == cli.nextVer
  {
    hide NonMembOk, MapDigest, KeysOk, HashedBound, BoundFor;
    LatestDig(c, k, st);
    if |Versions(st.log, cli.uid)| == cli.nextVer {
      SelfMonAccepted(c, k, st, cli);
    } else {
      BoundRejected(c, k, st, cli.uid, cli.nextVer, ServSelfMon(c, k, st, cli.uid).bound, q);
    }
  }

  /** The answer to a put that the last batch has applied. */
  ghost function LastPutReply(c: Crypto, k: ServKeys, st: ServState, uid: U64, pk: Slice): PutReply
    requires 0 < |st.hist| < U64_BOUND && 0 < |Versions(st.log, uid)| < U64_BOUND
  {
    Mapper1For(c, st, Mapper0For(c, k, uid, |Versions(st.log, uid)| - 1, |st.hist| - 1, pk))
  }

  /** The client accepts it if and only if it is the next version that the client counts. */
  lemma PutAcceptedIff(c: Crypto, k: ServKeys, st: ServState, cli: CliState, pk: Slice, q: set<Bytes>)
    requires KeysOk(c, k) && ServInv(c, k, st) && ClientAgrees(cli, st.hist) && cli.nextEpoch < |st.hist|
    requires cli.nextVer + 1 <= |Versions(st.log, cli.uid)| < U64_BOUND
    requires var put := Versions(st.log, cli.uid)[|Versions(st.log, cli.uid)| - 1];
             put.epoch == |st.hist| - 1 && put.open.val == pk
    requires cli.nextVer + 1 < U64_BOUND
             && HashedBound(c, k, KeyMapOf(st), cli.uid, cli.nextVer + 1, LastPutReply(c, k, st, cli.uid, pk).bound, q)
    ensures PutReplyOk(c, CliKeysOf(k), cli, pk, LastPutReply(c, k, st, cli.uid, pk))
            <==> |Versions(st.log, cli.uid)| == cli.nextVer + 1
  {
    hide NonMembOk, MembOk, MapDigest, KeysOk, HashedBound, Registered, EpochOk, OpenFor, Label, LabelProof;
    hide CompMapVal, ToU64;
    hide Mapper0For, Mapper1For, GetDig, KeyMapOf;
    LatestDig(c, k, st);
    ReplyFields(c, k, st, cli.uid, pk);
    if |Versions(st.log, cli.uid)| == cli.nextVer + 1 {
      PutAccepted(c, k, st, cli, pk);
    } else {
      BoundRejected(c, k, st, cli.uid, cli.nextVer + 1, LastPutReply(c, k, st, cli.uid, pk).bound, q);
    }
  }

  lemma ReplyFields(c: Crypto, k: ServKeys, st: ServState, uid: U64, pk: Slice)
    requires 0 < |st.hist| < U64_BOUND && 0 < |Versions(st.log, uid)| < U64_BOUND
    ensures LastPutReply(c, k, st, uid, pk).dig == GetDig(st.hist)
  {
    hide GetDig, Label, LabelProof, OpenFor, CompMapVal;
  }

  // ---- a put that is sent again

  /** The server after these batches. */
  ghost function AfterBatches(c: Crypto, k: ServKeys, st: ServState, batches: seq<seq<Req>>): (st': ServState)
    ensures |st'.hist| == |st.hist| + |batches|
  {
    if batches == [] then st
    else AfterBatch(c, k, AfterBatches(c, k, st, batches[..|batches| - 1]), batches[|batches| - 1])
  }

  /** How many of the batches have a put of the uid: each of them applies one. */
  function Applied(batches: seq<seq<Req>>, uid: U64): nat {
    if batches == [] then 0
    else Applied(batches[..|batches| - 1], uid) + if HasUid(batches[|batches| - 1], uid) then 1 else 0
  }

  lemma {:induction false} AppliedVersions(c: Crypto, k: ServKeys, st: ServState, batches: seq<seq<Req>>, uid: U64)
    requires LabelsInjective(c, k) && ServInv(c, k, st) && |st.hist| + |batches| < U64_BOUND
    ensures var st' := AfterBatches(c, k, st, batches);
            && ServInv(c, k, st') && st.hist <= st'.hist
            && |Versions(st'.log, uid)| == |Versions(st.log, uid)| + Applied(batches, uid)
  {
    hide LabelsInjective, ServInv, HasUid, NewVersion, Versions, AfterBatch;
    if batches != [] {
      var init, last := batches[..|batches| - 1], batches[|batches| - 1];
      AppliedVersions(c, k, st, init, uid);
      var before := AfterBatches(c, k, st, init);
      CommitKeepsInv(c, k, before, last);
      BatchAdds(c, k, before, last, uid);
    }
  }

  lemma BatchAdds(c: Crypto, k: ServKeys, st: ServState, batch: seq<Req>, uid: U64)
    requires |st.hist| < U64_BOUND
    ensures var st' := AfterBatch(c, k, st, batch);
            && st.hist <= st'.hist && |st'.hist| == |st.hist| + 1
            && Versions(st'.log, uid) == Versions(st.log, uid) + NewVersion(c, k, |st.hist|, st.users, batch, uid)
            && |NewVersion(c, k, |st.hist|, st.users, batch, uid)| == if HasUid(batch, uid) then 1 else 0
  {
    hide ApplyAll, Accepted, HasUid, OpenFor, FirstReq, MapDigest, Auditor.SignDig;
    BatchVersions(c, k, |st.hist|, StartBatch(st), batch, uid);
  }

  /** What the worker answers to position i of the last of these batches. */
  ghost function RespAt(c: Crypto, k: ServKeys, st: ServState, batches: seq<seq<Req>>, i: nat): WQResp
    requires batches != [] && i < |batches[|batches| - 1]| && |st.hist| + |batches| < U64_BOUND
  {
    BatchResps(c, k, AfterBatches(c, k, st, batches[..|batches| - 1]), batches[|batches| - 1])[i]
  }

  /** What is hashed to check the reply's bound, if there is a reply. */
  ghost predicate HashedResp(c: Crypto, k: ServKeys, st: ServState, cli: CliState, resp: WQResp, q: set<Bytes>)
    requires cli.nextVer + 1 < U64_BOUND
  {
    ReplyOf(resp).Some? ==>
      HashedBound(c, k, KeyMapOf(st), cli.uid, cli.nextVer + 1, ReplyOf(resp).value.bound, q)
  }

  /** The client's put takes this reply without an error. */
  predicate PutSucceeds(c: Crypto, k: ServKeys, cli: CliState, pk: Slice, reply: Option<PutReply>)
    requires cli.nextVer + 1 < U64_BOUND
  {
    AfterPut(c, CliKeysOf(k), cli, pk, reply).1.NoErr?
  }

  lemma PutSucceedsIff(c: Crypto, k: ServKeys, st: ServState, cli: CliState, pk: Slice, r: PutReply)
    requires KeysOk(c, k) && ServInv(c, k, st) && ClientAgrees(cli, st.hist) && cli.nextVer + 1 < U64_BOUND
    requires r.dig == GetDig(st.hist)
    ensures PutSucceeds(c, k, cli, pk, Some(r)) <==> PutReplyOk(c, CliKeysOf(k), cli, pk, r)
  {
    hide KeysOk, Registered, EpochOk, PutReplyOk, CheckDig;
    DigAccepted(c, k, st, cli, |st.hist| - 1);
  }

  /** The first request of a uid is answered about the version that the batch has just added; a later
      one is rejected. */
  lemma RespIs(c: Crypto, k: ServKeys, st: ServState, batch: seq<Req>, i: nat)
    requires LabelsInjective(c, k) && ServInv(c, k, st) && |st.hist| + 1 < U64_BOUND && i < |batch|
    ensures var st', uid, resp := AfterBatch(c, k, st, batch), batch[i].uid, BatchResps(c, k, st, batch)[i];
            && HasUid(batch, uid) && 0 < |Versions(st'.log, uid)| < U64_BOUND && 0 < |st'.hist| < U64_BOUND
            && if HasUid(batch[..i], uid) then resp == REJECTED
               else FirstReq(batch, uid) == batch[i] && resp == Answer(LastPutReply(c, k, st', uid, batch[i].pk))
  {
    hide LabelsInjective, Registered, EpochOk, HasUid, NewVersion, Versions, UserOf, AfterBatch, Mapper1For, Label;
    hide FirstReq;
    var uid := batch[i].uid;
    assert HasUid(batch, uid) by {
      InBatchHasUid(batch, i);
    }
    BatchAdds(c, k, st, batch, uid);
    UserCount(c, k, st, uid);
    if !HasUid(batch[..i], uid) {
      FirstReqIs(batch, i);
    }
  }

  lemma InBatchHasUid(batch: seq<Req>, i: nat)
    requires i < |batch|
    ensures HasUid(batch, batch[i].uid)
  {
    assert batch[i] in batch;
  }

  lemma UserCount(c: Crypto, k: ServKeys, st: ServState, uid: U64)
    requires ServInv(c, k, st)
    ensures UserOf(st.users, uid).numVers == |Versions(st.log, uid)| <= |st.hist|
  {
    hide UidInMap, EpochOk;
    UserFacts(c, k, st, uid);
  }

  /** A client with no other put under way has sent a put, perhaps several times, and waits for the
      answer to the copy at position i of the last batch. This answer has an encoding if and only if no
      earlier request of the batch has the client's uid; and the client accepts it if and only if,
      moreover, no earlier batch has one: for all other copies, of the same batch or of earlier ones, the
      call that waits for the answer fails. */
  lemma ResentPut(c: Crypto, k: ServKeys, st: ServState, cli: CliState, batches: seq<seq<Req>>, i: nat, pk: Slice,
                  q: set<Bytes>)
    requires KeysOk(c, k) && ServInv(c, k, st) && ClientAgrees(cli, st.hist)
    requires |Versions(st.log, cli.uid)| == cli.nextVer && cli.nextVer + |batches| + 1 < U64_BOUND
    requires batches != [] && |st.hist| + |batches| < U64_BOUND
    requires i < |batches[|batches| - 1]| && batches[|batches| - 1][i] == Req(cli.uid, pk)
    requires HashedResp(c, k, AfterBatches(c, k, st, batches), cli, RespAt(c, k, st, batches, i), q)
    ensures var resp, last := RespAt(c, k, st, batches, i), batches[|batches| - 1];
            && (ServerPutReplyEncode([], resp).Some? <==> !HasUid(last[..i], cli.uid))
            && (PutSucceeds(c, k, cli, pk, ReplyOf(resp))
                <==> !HasUid(last[..i], cli.uid) && Applied(batches, cli.uid) == 1)
  {
    hide KeysOk, ServInv, HashedResp, HasUid, NewVersion, PutReplyOk, AfterBatch, CollisionFree, BatchResps;
    hide PutSucceeds, LastPutReply, MembEncode, NonMembEncode, SliceBytes, IntBytes, FirstReq;
    var init, last := batches[..|batches| - 1], batches[|batches| - 1];
    var before, st' := AfterBatches(c, k, st, init), AfterBatches(c, k, st, batches);
    KeysInjective(c, k);
    AppliedVersions(c, k, st, init, cli.uid);
    RespIs(c, k, before, last, i);
    if HasUid(last[..i], cli.uid) {
      RejectedFails(c, k, cli, pk);
    } else {
      FirstCopy(c, k, st, cli, batches, i, pk, q);
    }
  }

  lemma RejectedFails(c: Crypto, k: ServKeys, cli: CliState, pk: Slice)
    requires cli.nextVer + 1 < U64_BOUND
    ensures ReplyOf(REJECTED).None? && !PutSucceeds(c, k, cli, pk, None)
  {
  }

  lemma FirstCopy(c: Crypto, k: ServKeys, st: ServState, cli: CliState, batches: seq<seq<Req>>, i: nat, pk: Slice,
                  q: set<Bytes>)
    requires KeysOk(c, k) && ServInv(c, k, st) && ClientAgrees(cli, st.hist)
    requires |Versions(st.log, cli.uid)| == cli.nextVer && cli.nextVer + |batches| + 1 < U64_BOUND
    requires batches != [] && |st.hist| + |batches| < U64_BOUND
    requires i < |batches[|batches| - 1]| && batches[|batches| - 1][i] == Req(cli.uid, pk)
    requires !HasUid(batches[|batches| - 1][..i], cli.uid)
    requires HashedResp(c, k, AfterBatches(c, k, st, batches), cli, RespAt(c, k, st, batches, i), q)
    ensures PutSucceeds(c, k, cli, pk, ReplyOf(RespAt(c, k, st, batches, i))) <==> Applied(batches, cli.uid) == 1
  {
    hide KeysOk, ServInv, HashedBound, HasUid, NewVersion, PutReplyOk, AfterBatch, CollisionFree, BatchResps;
    hide PutSucceeds, LastPutReply, FirstReq, Mapper1For;
    var init, last := batches[..|batches| - 1], batches[|batches| - 1];
    var before, st' := AfterBatches(c, k, st, init), AfterBatches(c, k, st, batches);
    KeysInjective(c, k);
    AppliedVersions(c, k, st, batches, cli.uid);
    AppliedVersions(c, k, st, init, cli.uid);
    AppliedBound(batches, cli.uid);
    RespIs(c, k, before, last, i);
    BatchAdds(c, k, before, last, cli.uid);
    LastVersion(c, k, before, last, cli.uid);
    AgreesLater(cli, st.hist, st'.hist);
    ReplyFields(c, k, st', cli.uid, pk);
    PutSucceedsIff(c, k, st', cli, pk, LastPutReply(c, k, st', cli.uid, pk));
    PutAcceptedIff(c, k, st', cli, pk, q);
  }

  // ---- from the start: a new server and a new client

  /** The batches of a put that is sent once, and twice far enough apart. */
  function Copies(uid: U64, pk: Slice, n: nat): (batches: seq<seq<Req>>)
    ensures |batches| == n && forall j: nat | j < n :: batches[j] == [Req(uid, pk)]
  {
    seq(n, _ => [Req(uid, pk)])
  }

  lemma {:induction false} CopiesApplied(uid: U64, pk: Slice, n: nat)
    ensures Applied(Copies(uid, pk, n), uid) == n
  {
    if n > 0 {
      assert Copies(uid, pk, n)[..n - 1] == Copies(uid, pk, n - 1);
      InBatchHasUid([Req(uid, pk)], 0);
      CopiesApplied(uid, pk, n - 1);
    }
  }

  /** The put of a new client to a new server, in n batches of its own: the answer to the n-th copy is
      accepted if and only if n is 1. */
  lemma CopiesAnswered(c: Crypto, k: ServKeys, uid: U64, pk: Slice, n: nat, q: set<Bytes>)
    requires KeysOk(c, k) && 0 < n && n + 2 < U64_BOUND
    requires var st, batches := ServInit(c, k), Copies(uid, pk, n);
             HashedResp(c, k, AfterBatches(c, k, st, batches), Init(uid), RespAt(c, k, st, batches, 0), q)
    ensures PutSucceeds(c, k, Init(uid), pk, ReplyOf(RespAt(c, k, ServInit(c, k), Copies(uid, pk, n), 0))) <==> n == 1
  {
    hide KeysOk, ServInv, HashedResp, AfterBatches, ServInit, PutSucceeds, RespAt, HasUid, Applied, Versions;
    hide ClientAgrees, ServerPutReplyEncode;
    InitFacts(c, k, uid);
    InitInv(c, k);
    CopiesApplied(uid, pk, n);
    NoUid(uid);
    ResentPut(c, k, ServInit(c, k), Init(uid), Copies(uid, pk, n), 0, pk, q);
  }

  /** A client that has taken the answer to the first copy fails to self-monitor once the second one is
      applied. */
  lemma LateCopyBreaksSelfMon(c: Crypto, k: ServKeys, uid: U64, pk: Slice, q: set<Bytes>)
    requires KeysOk(c, k)
    requires PutSucceeds(c, k, Init(uid), pk, ReplyOf(RespAt(c, k, ServInit(c, k), [[Req(uid, pk)]], 0)))
    requires var st := AfterBatches(c, k, ServInit(c, k), [[Req(uid, pk)], [Req(uid, pk)]]);
             HashedBound(c, k, KeyMapOf(st), uid, 1, ServSelfMon(c, k, st, uid).bound, q)
    ensures var st := AfterBatches(c, k, ServInit(c, k), [[Req(uid, pk)], [Req(uid, pk)]]);
            var reply := ReplyOf(RespAt(c, k, ServInit(c, k), [[Req(uid, pk)]], 0));
            var cli := AfterPut(c, CliKeysOf(k), Init(uid), pk, reply).0;
            cli.nextVer == 1 && !SelfMonReplyOk(c, CliKeysOf(k), cli, ServSelfMon(c, k, st, uid))
  {
    hide KeysOk, ServInv, HashedBound, AfterBatches, ServInit, PutSucceeds, RespAt, SelfMonReplyOk, ServSelfMon;
    hide AfterPut, HasUid, Applied, Versions, ClientAgrees, LabelsInjective;
    var batches := Copies(uid, pk, 2);
    assert batches == [[Req(uid, pk)], [Req(uid, pk)]];
    InitFacts(c, k, uid);
    InitInv(c, k);
    KeysInjective(c, k);
    CopiesApplied(uid, pk, 2);
    AppliedVersions(c, k, ServInit(c, k), batches, uid);
    FirstAccepted(c, k, uid, pk);
    var reply := ReplyOf(RespAt(c, k, ServInit(c, k), [[Req(uid, pk)]], 0));
    SelfMonAcceptedIff(c, k, AfterBatches(c, k, ServInit(c, k), batches),
                       AfterPut(c, CliKeysOf(k), Init(uid), pk, reply).0, q);
  }

  /** The client's state after the first answer. */
  lemma FirstAccepted(c: Crypto, k: ServKeys, uid: U64, pk: Slice)
    requires LabelsInjective(c, k)
    requires PutSucceeds(c, k, Init(uid), pk, ReplyOf(RespAt(c, k, ServInit(c, k), [[Req(uid, pk)]], 0)))
    ensures var batch := [Req(uid, pk)];
            var cli' := AfterPut(c, CliKeysOf(k), Init(uid), pk, ReplyOf(RespAt(c, k, ServInit(c, k), [batch], 0))).0;
            && cli'.uid == uid && cli'.nextVer == 1
            && ClientAgrees(cli', AfterBatches(c, k, ServInit(c, k), [batch, batch]).hist)
  {
    hide LabelsInjective, ServInit, AfterBatch, PutReplyOk, CheckDig, BatchResps, LastPutReply, HasUid;
    var st, batch := ServInit(c, k), [Req(uid, pk)];
    InitFacts(c, k, uid);
    InitInv(c, k);
    TwoBatches(c, k, st, batch, batch);
    RespIs(c, k, st, batch, 0);
    var none: seq<seq<Req>> := [];
    assert [batch][..0] == none;
    assert batch[..0] == [];
    NoUid(uid);
    var st1 := AfterBatch(c, k, st, batch);
    ReplyFields(c, k, st1, uid, pk);
    BatchAdds(c, k, st, batch, uid);
    BatchAdds(c, k, st1, batch, uid);
  }

  lemma TwoBatches(c: Crypto, k: ServKeys, st: ServState, batch: seq<Req>, batch': seq<Req>)
    ensures AfterBatches(c, k, st, [batch]) == AfterBatch(c, k, st, batch)
    ensures AfterBatches(c, k, st, [batch, batch']) == AfterBatch(c, k, AfterBatch(c, k, st, batch), batch')
  {
    hide AfterBatch;
    assert [batch][..0] == [] && [batch, batch'][..1] == [batch];
  }

  lemma InitFacts(c: Crypto, k: ServKeys, uid: U64)
    ensures Versions(ServInit(c, k).log, uid) == []
    ensures ClientAgrees(Init(uid), ServInit(c, k).hist)
  {
  }

  /** Two copies in one batch: the second has an answer without an encoding, and the client does not
      accept it; the version is added once. */
  lemma TwoCopiesOneBatch(c: Crypto, k: ServKeys, uid: U64, pk: Slice, q: set<Bytes>)
    requires KeysOk(c, k)
    ensures var st, batch := ServInit(c, k), [Req(uid, pk), Req(uid, pk)];
            && ServerPutReplyEncode([], RespAt(c, k, st, [batch], 0)).Some?
            && ServerPutReplyEncode([], RespAt(c, k, st, [batch], 1)).None?
            && !PutSucceeds(c, k, Init(uid), pk, ReplyOf(RespAt(c, k, st, [batch], 1)))
            && |Versions(AfterBatches(c, k, st, [batch]).log, uid)| == 1
  {
    hide KeysOk, ServInv, AfterBatch, ServInit, PutSucceeds, BatchResps, LastPutReply, HasUid, MembEncode;
    hide NonMembEncode, SliceBytes, IntBytes;
    var st, batch := ServInit(c, k), [Req(uid, pk), Req(uid, pk)];
    InitFacts(c, k, uid);
    InitInv(c, k);
    KeysInjective(c, k);
    AppliedVersions(c, k, st, [batch], uid);
    var none: seq<seq<Req>> := [];
    assert [batch][..0] == none;
    RespIs(c, k, st, batch, 0);
    RespIs(c, k, st, batch, 1);
    assert batch[..0] == [] && batch[..1] == [Req(uid, pk)];
    NoUid(uid);
    InBatchHasUid(batch[..1], 0);
    RejectedFails(c, k, Init(uid), pk);
  }

  lemma KeysInjective(c: Crypto, k: ServKeys)
    requires KeysOk(c, k)
    ensures LabelsInjective(c, k)
  {
  }

  lemma {:induction false} AppliedBound(batches: seq<seq<Req>>, uid: U64)
    ensures Applied(batches, uid) <= |batches|
  {
    if batches != [] {
      AppliedBound(batches[..|batches| - 1], uid);
    }
  }

  lemma LastVersion(c: Crypto, k: ServKeys, st: ServState, batch: seq<Req>, uid: U64)
    requires |st.hist| < U64_BOUND && HasUid(batch, uid)
    ensures var put := NewVersion(c, k, |st.hist|, st.users, batch, uid);
            |put| == 1 && put[0].epoch == |st.hist| && put[0].open.val == FirstReq(batch, uid).pk
  {
    hide HasUid, FirstReq, Label;
  }

  lemma AgreesLater(cli: CliState, hist: seq<EpochInfo>, hist': seq<EpochInfo>)
    requires ClientAgrees(cli, hist) && hist <= hist'
    ensures ClientAgrees(cli, hist')
  {
    forall e | e in cli.seenDigs
      ensures e < |hist'| && cli.seenDigs[e].dig == hist'[e].dig
    {
      assert hist'[e] == hist[e];
    }
  }
}
