/** Server.Put of kt/server.go: through the work queue, with the server's own worker behind it. */
module KtPutQueue {
  import opened Bytes
  import opened KtTypes
  import opened KtServer
  import opened KtServerProofs
  import opened KtServerImpl
  import opened WorkQ

  /** The server after these batches. */
  ghost function StateAfter(c: Crypto, k: ServKeys, batches: seq<seq<KtServer.Req>>): (st: ServState)
    ensures |st.hist| == |batches| + 1
  {
    if batches == [] then ServInit(c, k)
    else AfterBatch(c, k, StateAfter(c, k, batches[..|batches| - 1]), batches[|batches| - 1])
  }

  /** What Worker answers to position i of the last batch. */
  ghost function WorkerAnswer(c: Crypto, k: ServKeys, batches: seq<seq<KtServer.Req>>, i: nat): KtServerProofs.WQResp
    requires batches != [] && i < |batches[|batches| - 1]| && |batches| + 1 < U64_BOUND
  {
    BatchResps(c, k, StateAfter(c, k, batches[..|batches| - 1]), batches[|batches| - 1])[i]
  }

  ghost function ServerCalls(c: Crypto, k: ServKeys, reqs: seq<KtServer.Req>): Calls {
    Calls(reqs, (batches: seq<seq<KtServer.Req>>, i: nat) =>
      if batches != [] && i < |batches[|batches| - 1]| && |batches| + 1 < U64_BOUND
      then WorkerAnswer(c, k, batches, i) else REJECTED)
  }

  lemma {:induction false} BatchesBound(calls: Calls, schedule: seq<Thread>)
    ensures |Run(calls, schedule).batches| <= |schedule|
  {
    hide Move;
    if schedule != [] {
      BatchesBound(calls, schedule[..|schedule| - 1]);
      MoveBatches(Run(calls, schedule[..|schedule| - 1]), schedule[|schedule| - 1]);
    }
  }

  lemma MoveBatches(s: State, t: Thread)
    ensures |Move(s, t).batches| <= |s.batches| + 1
  {
    hide SetResps, LastAnswers, Enabled, ItemOk;
  }

  /** The answer to a request is about it: its key, at the epoch of its batch; or it is rejected,
      exactly if an earlier request of the batch has the same uid. */
  lemma AnswerIsOwn(c: Crypto, k: ServKeys, batches: seq<seq<KtServer.Req>>, i: nat)
    requires batches != [] && i < |batches[|batches| - 1]| && |batches| + 1 < U64_BOUND
    ensures var batch, r := batches[|batches| - 1], WorkerAnswer(c, k, batches, i);
            && (r.err <==> HasUid(batch[..i], batch[i].uid))
            && (!r.err ==> r.dig.Some? && r.dig.value.epoch == |batches| && r.lat.epochAdded == |batches|
                           && r.lat.pkOpen.val == batch[i].pk)
  {
    hide HasUid, AfterBatch, LabelProof, Label;
    var st, batch := StateAfter(c, k, batches[..|batches| - 1]), batches[|batches| - 1];
    HistGrows(c, k, st, batch);
  }

  lemma HistGrows(c: Crypto, k: ServKeys, st: ServState, batch: seq<KtServer.Req>)
    ensures |AfterBatch(c, k, st, batch).hist| == |st.hist| + 1
  {
    hide ApplyAll, Accepted;
  }

  /** In every interleaving of any puts with the worker: a put that has returned has the answer to its
      own request, in the epoch of the one batch that has it. */
  lemma PutReturnsOwnAnswer(c: Crypto, k: ServKeys, reqs: seq<KtServer.Req>, schedule: seq<Thread>, id: nat)
    returns (b: nat, i: nat)
    requires |schedule| + 1 < U64_BOUND && id < |reqs|
    requires Run(ServerCalls(c, k, reqs), schedule).callers[id].Returned?
    ensures var s := Run(ServerCalls(c, k, reqs), schedule);
            && Placed(s, id, b, i) && s.resp[id].Some?
            && var r := s.resp[id].value;
               var batch := BatchReqs(reqs, s.batches[b]);
               && batch[i] == reqs[id]
               && (r.err <==> HasUid(batch[..i], reqs[id].uid))
               && (!r.err ==> r.dig.Some? && r.dig.value.epoch == b + 1 && r.lat.pkOpen.val == reqs[id].pk)
  {
    hide HasUid, Run, WorkerAnswer, BatchReqs;
    var calls := ServerCalls(c, k, reqs);
    var s := Run(calls, schedule);
    b, i := ReturnedHasResponse(calls, schedule, id);
    BatchesBound(calls, schedule);
    var batches := AllReqs(reqs, s.batches[..b + 1]);
    BatchLength(reqs, s.batches[b]);
    assert batches[b] == BatchReqs(reqs, s.batches[b]);
    AnswerIsOwn(c, k, batches, i);
  }

  lemma BatchLength(reqs: seq<KtServer.Req>, batch: seq<nat>)
    ensures |BatchReqs(reqs, batch)| == |batch|
  {
  }
}
