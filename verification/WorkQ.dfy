/** kt/workq.go as a step system: any number of concurrent Do calls and one worker, every lock,
    wait and signal a step of its own. */
module WorkQ {
  import opened Bytes
  import KtServer
  import KtServerProofs

  type Req = KtServer.Req
  type WQResp = KtServerProofs.WQResp

  // ---- states

  /** Where a Do call is. */
  datatype CallerPc =
    | Start                // before wq.mu.Lock
    | Append | SignalQ | UnlockQ            // holding wq.mu
    | LockW                // before w.mu.Lock
    | CheckW               // holding w.mu, about to test w.done
    | AsleepW              // in w.cond.Wait
    | WokenW               // signalled, about to take w.mu again
    | UnlockW              // holding w.mu, after the loop
    | Returned

  /** Where the worker is: in Get, or finishing item i of its batch. */
  datatype WorkerPc =
    | LockG
    | CheckG               // holding wq.mu, about to test wq.work
    | AsleepG | WokenG
    | TakeG                // holding wq.mu, after the loop
    | UnlockG(batch: seq<nat>)              // holding wq.mu, with the work it took
    | LockF(batch: seq<nat>, i: nat)
    | SetDone(batch: seq<nat>, i: nat) | SignalF(batch: seq<nat>, i: nat) | UnlockF(batch: seq<nat>, i: nat)

  datatype Owner = Free | Worker | Caller(id: nat)

  /** What the worker answers to a position of a batch, from the requests of this batch and of all
      before it. */
  type Answers = (seq<seq<Req>>, nat) -> WQResp

  /** The calls, with a request each, and what the worker computes for them. */
  datatype Calls = Calls(reqs: seq<Req>, answer: Answers)

  /** Call id has its own Work object: its request, wLock, done and resp at index id. The log records
      the order of the appends, batches what Get has returned so far. */
  datatype State = State(
    calls: Calls,
    callers: seq<CallerPc>, worker: WorkerPc,
    qLock: Owner, work: seq<nat>,
    wLock: seq<Owner>, done: seq<bool>, resp: seq<Option<WQResp>>,
    log: seq<nat>, batches: seq<seq<nat>>)

  ghost function Init(calls: Calls): State {
    var n := |calls.reqs|;
    State(calls, seq(n, _ => Start), LockG, Free, [], seq(n, _ => Free), seq(n, _ => false), seq(n, _ => None), [], [])
  }

  /** A step of a thread: of call id, or of the worker. */
  datatype Thread = DoCall(id: nat) | WorkerThread

  predicate Shaped(s: State) {
    |s.wLock| == |s.done| == |s.resp| == |s.callers| == |s.calls.reqs|
  }

  /** The item that the worker is finishing. */
  predicate Finishing(w: WorkerPc) {
    w.LockF? || w.SetDone? || w.SignalF? || w.UnlockF?
  }

  function Item(w: WorkerPc): nat
    requires Finishing(w) && w.i < |w.batch|
  {
    w.batch[w.i]
  }

  predicate ItemOk(s: State) {
    Finishing(s.worker) ==> s.worker.i < |s.worker.batch| && Item(s.worker) < |s.callers|
  }

  /** The thread can take its next step now: it sleeps in no Wait and blocks on no lock. */
  predicate Enabled(s: State, t: Thread)
    requires Shaped(s) && ItemOk(s)
  {
    match t
    case DoCall(id) =>
      && id < |s.callers|
      && (match s.callers[id]
          case Start => s.qLock == Free
          case LockW => s.wLock[id] == Free
          case WokenW => s.wLock[id] == Free
          case AsleepW => false
          case Returned => false
          case _ => true)
    case WorkerThread =>
      match s.worker
      case LockG => s.qLock == Free
      case WokenG => s.qLock == Free
      case AsleepG => false
      case LockF(_, _) => s.wLock[Item(s.worker)] == Free
      case _ => true
  }

  function SetPc(s: State, id: nat, pc: CallerPc): State
    requires id < |s.callers|
  {
    s.(callers := s.callers[id := pc])
  }

  /** wq.cond.Signal: wakes the worker if it sleeps. */
  function Woken(w: WorkerPc): WorkerPc {
    if w.AsleepG? then WokenG else w
  }

  function CallerStep(s: State, id: nat): State
    requires Shaped(s) && id < |s.callers|
  {
    match s.callers[id]
    case Start => SetPc(s, id, Append).(qLock := Caller(id))
    case Append => SetPc(s, id, SignalQ).(work := s.work + [id], log := s.log + [id])
    case SignalQ => SetPc(s, id, UnlockQ).(worker := Woken(s.worker))
    case UnlockQ => SetPc(s, id, LockW).(qLock := Free)
    case LockW => SetPc(s, id, CheckW).(wLock := s.wLock[id := Caller(id)])
    case WokenW => SetPc(s, id, CheckW).(wLock := s.wLock[id := Caller(id)])
    case CheckW => if s.done[id] then SetPc(s, id, UnlockW) else SetPc(s, id, AsleepW).(wLock := s.wLock[id := Free])
    case UnlockW => SetPc(s, id, Returned).(wLock := s.wLock[id := Free])
    case AsleepW => s
    case Returned => s
  }

  function BatchReqs(reqs: seq<Req>, batch: seq<nat>): seq<Req> {
    seq(|batch|, i requires 0 <= i < |batch| => if batch[i] < |reqs| then reqs[batch[i]] else KtServer.Req(0, []))
  }

  function AllReqs(reqs: seq<Req>, batches: seq<seq<nat>>): seq<seq<Req>> {
    seq(|batches|, b requires 0 <= b < |batches| => BatchReqs(reqs, batches[b]))
  }

  /** The worker sets the responses of a batch, item by item, before the first Finish. */
  function SetResps(resp: seq<Option<WQResp>>, batch: seq<nat>, answer: nat -> WQResp): (r: seq<Option<WQResp>>)
    ensures |r| == |resp|
  {
    if batch == [] then resp
    else
      var n := |batch| - 1;
      var r := SetResps(resp, batch[..n], answer);
      if batch[n] < |r| then r[batch[n] := Some(answer(n))] else r
  }

  /** What the worker answers to the batch it took last. */
  function LastAnswers(s: State): nat -> WQResp {
    (i: nat) => s.calls.answer(AllReqs(s.calls.reqs, s.batches), i)
  }

  function WorkerStep(s: State): State
    requires Shaped(s) && ItemOk(s)
  {
    match s.worker
    case LockG => s.(worker := CheckG, qLock := Worker)
    case WokenG => s.(worker := CheckG, qLock := Worker)
    case CheckG => if s.work == [] then s.(worker := AsleepG, qLock := Free) else s.(worker := TakeG)
    case TakeG => s.(worker := UnlockG(s.work), work := [], batches := s.batches + [s.work])
    case UnlockG(batch) =>
      var s' := s.(qLock := Free, resp := SetResps(s.resp, batch, LastAnswers(s)));
      if batch == [] then s'.(worker := LockG) else s'.(worker := LockF(batch, 0))
    case LockF(batch, i) => s.(worker := SetDone(batch, i), wLock := s.wLock[batch[i] := Worker])
    case SetDone(batch, i) => s.(worker := SignalF(batch, i), done := s.done[batch[i] := true])
    case SignalF(batch, i) =>
      var s' := s.(worker := UnlockF(batch, i));
      if s.callers[batch[i]].AsleepW? then SetPc(s', batch[i], WokenW) else s'
    case UnlockF(batch, i) =>
      var s' := s.(wLock := s.wLock[batch[i] := Free]);
      if i + 1 < |batch| then s'.(worker := LockF(batch, i + 1)) else s'.(worker := LockG)
    case AsleepG => s
  }

  function Step(s: State, t: Thread): State
    requires Shaped(s) && ItemOk(s) && Enabled(s, t)
  {
    match t
    case DoCall(id) => CallerStep(s, id)
    case WorkerThread => WorkerStep(s)
  }

  // ---- the invariant

  predicate CallerHoldsQ(pc: CallerPc) { pc.Append? || pc.SignalQ? || pc.UnlockQ? }
  predicate WorkerHoldsQ(w: WorkerPc) { w.CheckG? || w.TakeG? || w.UnlockG? }
  predicate CallerHoldsW(pc: CallerPc) { pc.CheckW? || pc.UnlockW? }
  predicate WorkerHoldsW(w: WorkerPc) { w.SetDone? || w.SignalF? || w.UnlockF? }
  predicate Appended(pc: CallerPc) { !pc.Start? && !pc.Append? }

  /** The queue's lock is held by the one thread that is in its critical section. */
  ghost predicate QLockOk(s: State) {
    && (WorkerHoldsQ(s.worker) <==> s.qLock == Worker)
    && (forall id: nat | id < |s.callers| :: CallerHoldsQ(s.callers[id]) <==> s.qLock == Caller(id))
    && (s.qLock.Caller? ==> s.qLock.id < |s.callers|)
  }

  ghost predicate WLockOk(s: State)
    requires Shaped(s) && ItemOk(s)
  {
    forall id: nat | id < |s.callers| ::
      && (CallerHoldsW(s.callers[id]) <==> s.wLock[id] == Caller(id))
      && (WorkerHoldsW(s.worker) && Item(s.worker) == id <==> s.wLock[id] == Worker)
      && (s.wLock[id].Caller? ==> s.wLock[id].id == id)
  }

  function Flatten(batches: seq<seq<nat>>): seq<nat> {
    if batches == [] then [] else Flatten(batches[..|batches| - 1]) + batches[|batches| - 1]
  }

  /** What the worker has taken and not yet marked done. */
  function Unfinished(w: WorkerPc): seq<nat> {
    match w
    case UnlockG(batch) => batch
    case LockF(batch, i) => if i <= |batch| then batch[i..] else []
    case SetDone(batch, i) => if i <= |batch| then batch[i..] else []
    case SignalF(batch, i) => if i < |batch| then batch[i + 1..] else []
    case UnlockF(batch, i) => if i < |batch| then batch[i + 1..] else []
    case _ => []
  }

  /** Every call enters the queue once, in the order of the log, and from the queue one batch. */
  ghost predicate OrderOk(s: State)
    requires Shaped(s)
  {
    && Flatten(s.batches) + s.work == s.log
    && (forall i: nat, j: nat | i < j < |s.log| :: s.log[i] != s.log[j])
    && (forall id: nat :: id in s.log <==> id < |s.callers| && Appended(s.callers[id]))
  }

  /** A call in the log is done, being finished, or in the queue: exactly one of these. */
  ghost predicate DoneOk(s: State)
    requires Shaped(s)
  {
    && (forall id: nat | id < |s.callers| ::
          s.done[id] <==> id in s.log && id !in s.work && id !in Unfinished(s.worker))
    && (forall id :: id in Unfinished(s.worker) ==> id in s.log && id !in s.work)
    && (forall i: nat, j: nat | i < j < |Unfinished(s.worker)| :: Unfinished(s.worker)[i] != Unfinished(s.worker)[j])
    && (s.worker.SignalF? || s.worker.UnlockF? ==>
          s.worker.i < |s.worker.batch| && Item(s.worker) in s.log && Item(s.worker) !in s.work
          && Item(s.worker) !in Unfinished(s.worker))
  }

  /** The worker has answered batch number b. */
  predicate Answered(s: State, b: nat) {
    b + 1 < |s.batches| || !s.worker.UnlockG?
  }

  /** Call id is at position i of batch number b. */
  predicate Placed(s: State, id: nat, b: nat, i: nat) {
    b < |s.batches| && i < |s.batches[b]| && s.batches[b][i] == id
  }

  /** The answer that is due at position i of batch number b. */
  function AnswerAt(s: State, b: nat, i: nat): WQResp
    requires b < |s.batches|
  {
    s.calls.answer(AllReqs(s.calls.reqs, s.batches[..b + 1]), i)
  }

  /** Every call of an answered batch has the answer of its own position in it. */
  ghost predicate AnswerOk(s: State) {
    && (s.worker.UnlockG? ==> s.batches != [] && s.worker.batch == s.batches[|s.batches| - 1])
    && forall id: nat, b: nat, i: nat | Placed(s, id, b, i) && Answered(s, b) ::
         id < |s.resp| && s.resp[id] == Some(AnswerAt(s, b, i))
  }

  /** A call goes on only when it is done. */
  ghost predicate RespOk(s: State)
    requires Shaped(s)
  {
    forall id: nat | id < |s.callers| && (s.callers[id].WokenW? || s.callers[id].UnlockW? || s.callers[id].Returned?) ::
      s.done[id]
  }

  /** No wake-up is lost: a sleeper whose condition holds has a pending signal. */
  ghost predicate WakeupOk(s: State)
    requires Shaped(s)
  {
    && (s.worker.AsleepG? && s.work != [] ==>
          s.qLock.Caller? && s.qLock.id < |s.callers| && s.callers[s.qLock.id].SignalQ?)
    && (forall id: nat | id < |s.callers| && s.callers[id].AsleepW? && s.done[id] ::
          s.worker.SignalF? && s.worker.i < |s.worker.batch| && Item(s.worker) == id)
    && (s.worker.TakeG? ==> s.work != [])
  }

  ghost predicate Inv(s: State) {
    Shaped(s) && ItemOk(s) && QLockOk(s) && WLockOk(s) && OrderOk(s) && DoneOk(s) && RespOk(s) && AnswerOk(s)
    && WakeupOk(s)
  }

  lemma InitInv(calls: Calls)
    ensures Inv(Init(calls))
  {
    hide SetResps, AllReqs;
    var s := Init(calls);
    assert OrderOk(s) && DoneOk(s) by {
      assert s.log == s.work == Flatten(s.batches) == Unfinished(s.worker) == [];
    }
  }

  // ---- steps of a call keep it

  lemma CallKeepsItem(s: State, id: nat)
    requires Inv(s) && Enabled(s, DoCall(id))
    ensures Shaped(CallerStep(s, id)) && ItemOk(CallerStep(s, id))
  {
  }

  lemma CallKeepsQLock(s: State, id: nat)
    requires Inv(s) && Enabled(s, DoCall(id))
    ensures Shaped(CallerStep(s, id)) && ItemOk(CallerStep(s, id)) && QLockOk(CallerStep(s, id))
  {
    CallKeepsItem(s, id);
    hide WLockOk, OrderOk, DoneOk, RespOk, WakeupOk;
  }

  lemma CallKeepsWLock(s: State, id: nat)
    requires Shaped(s) && ItemOk(s) && Enabled(s, DoCall(id)) && WLockOk(s)
    ensures Shaped(CallerStep(s, id)) && ItemOk(CallerStep(s, id)) && WLockOk(CallerStep(s, id))
  {
    var s' := CallerStep(s, id);
    forall j: nat | j < |s.callers|
      ensures CallerHoldsW(s'.callers[j]) <==> s'.wLock[j] == Caller(j)
      ensures WorkerHoldsW(s'.worker) && Item(s'.worker) == j <==> s'.wLock[j] == Worker
      ensures s'.wLock[j].Caller? ==> s'.wLock[j].id == j
    {
      assert j != id ==> s'.callers[j] == s.callers[j] && s'.wLock[j] == s.wLock[j];
      assert CallerHoldsW(s.callers[j]) <==> s.wLock[j] == Caller(j);
    }
  }

  lemma AppendKeepsOrder(s: State, id: nat)
    requires Shaped(s) && id < |s.callers| && s.callers[id].Append? && OrderOk(s)
    ensures OrderOk(CallerStep(s, id))
  {
    hide Flatten;
    var s' := CallerStep(s, id);
    assert Flatten(s.batches) + (s.work + [id]) == Flatten(s.batches) + s.work + [id];
    assert id !in s.log;
    forall j: nat
      ensures j in s'.log <==> j < |s.callers| && Appended(s'.callers[j])
    {
      assert j in s'.log <==> j in s.log || j == id;
    }
  }

  lemma CallKeepsOrder(s: State, id: nat)
    requires Shaped(s) && ItemOk(s) && Enabled(s, DoCall(id)) && OrderOk(s)
    ensures Shaped(CallerStep(s, id)) && OrderOk(CallerStep(s, id))
  {
    var s' := CallerStep(s, id);
    if s.callers[id].Append? {
      AppendKeepsOrder(s, id);
    } else {
      hide Flatten;
      assert s'.log == s.log && s'.work == s.work && s'.batches == s.batches;
      assert forall j: nat | j < |s.callers| :: Appended(s'.callers[j]) <==> Appended(s.callers[j]);
    }
  }

  lemma CallKeepsDone(s: State, id: nat)
    requires Inv(s) && Enabled(s, DoCall(id))
    ensures Shaped(CallerStep(s, id)) && ItemOk(CallerStep(s, id)) && DoneOk(CallerStep(s, id))
  {
    CallKeepsItem(s, id);
    hide Inv, QLockOk, WLockOk, RespOk, AnswerOk, WakeupOk, Flatten, Unfinished, OrderOk, DoneOk;
    InvDone(s);
    SameUnfinished(s, id);
    if s.callers[id].Append? {
      AppendKeepsDone(s, id);
    } else {
      SameKeepsDone(s, CallerStep(s, id));
    }
  }

  lemma InvDone(s: State)
    requires Inv(s)
    ensures Shaped(s) && ItemOk(s) && OrderOk(s) && DoneOk(s)
  {
    hide QLockOk, WLockOk, RespOk, AnswerOk, WakeupOk, OrderOk, DoneOk;
  }

  /** A call's step leaves the worker where it is, or wakes it. */
  lemma SameUnfinished(s: State, id: nat)
    requires Shaped(s) && ItemOk(s) && Enabled(s, DoCall(id))
    ensures var s' := CallerStep(s, id);
            && Unfinished(s'.worker) == Unfinished(s.worker) && s'.done == s.done
            && (s'.worker == s.worker || (s.worker.AsleepG? && s'.worker.WokenG?))
            && (s.callers[id].Append? ==> s'.log == s.log + [id] && s'.work == s.work + [id])
            && (!s.callers[id].Append? ==> s'.log == s.log && s'.work == s.work)
            && |s'.callers| == |s.callers|
  {
  }

  lemma AppendKeepsDone(s: State, id: nat)
    requires Shaped(s) && ItemOk(s) && OrderOk(s) && DoneOk(s) && id < |s.callers| && s.callers[id].Append?
    requires var s' := CallerStep(s, id);
             && s'.worker == s.worker && s'.done == s.done && s'.log == s.log + [id] && s'.work == s.work + [id]
             && |s'.callers| == |s.callers|
    ensures Shaped(CallerStep(s, id)) && ItemOk(CallerStep(s, id)) && DoneOk(CallerStep(s, id))
  {
    hide Flatten, Unfinished;
    var s' := CallerStep(s, id);
    assert id !in s.log;
    assert forall j: nat :: j in s'.log <==> j in s.log || j == id;
    assert forall j: nat :: j in s'.work <==> j in s.work || j == id;
  }

  lemma SameKeepsDone(s: State, s': State)
    requires Shaped(s) && Shaped(s') && DoneOk(s) && |s'.callers| == |s.callers|
    requires s'.done == s.done && s'.log == s.log && s'.work == s.work && Unfinished(s'.worker) == Unfinished(s.worker)
    requires s'.worker == s.worker || (s.worker.AsleepG? && s'.worker.WokenG?)
    ensures DoneOk(s')
  {
    hide Unfinished;
  }

  lemma CallKeepsResp(s: State, id: nat)
    requires Shaped(s) && ItemOk(s) && Enabled(s, DoCall(id)) && RespOk(s)
    ensures Shaped(CallerStep(s, id)) && ItemOk(CallerStep(s, id)) && RespOk(CallerStep(s, id))
  {
    var s' := CallerStep(s, id);
    assert s'.done == s.done;
    assert forall j: nat | j < |s.callers| && j != id :: s'.callers[j] == s.callers[j];
  }

  lemma CallKeepsAnswer(s: State, id: nat)
    requires Shaped(s) && ItemOk(s) && Enabled(s, DoCall(id)) && AnswerOk(s)
    ensures AnswerOk(CallerStep(s, id))
  {
    hide AllReqs;
    var s' := CallerStep(s, id);
    assert s'.calls == s.calls && s'.batches == s.batches && s'.resp == s.resp;
    assert s'.worker == s.worker || (s'.worker.WokenG? && s.worker.AsleepG?);
    forall j: nat, b: nat, i: nat | Placed(s', j, b, i) && Answered(s', b)
      ensures j < |s'.resp| && s'.resp[j] == Some(AnswerAt(s', b, i))
    {
      assert Placed(s, j, b, i) && Answered(s, b);
    }
  }

  lemma CallKeepsWakeup(s: State, id: nat)
    requires Inv(s) && Enabled(s, DoCall(id))
    ensures Shaped(CallerStep(s, id)) && ItemOk(CallerStep(s, id)) && WakeupOk(CallerStep(s, id))
  {
    CallKeepsItem(s, id);
    hide OrderOk, DoneOk, RespOk;
  }

  // ---- steps of the worker keep it

  lemma WorkerKeepsItem(s: State)
    requires Inv(s) && Enabled(s, WorkerThread)
    ensures Shaped(WorkerStep(s)) && ItemOk(WorkerStep(s))
  {
    hide QLockOk, WLockOk, RespOk, WakeupOk, Flatten;
    match s.worker
    case UnlockG(batch) =>
      assert batch != [] ==> batch[0] in Unfinished(s.worker);
    case UnlockF(batch, i) =>
      assert i + 1 < |batch| ==> batch[i + 1..][0] == batch[i + 1] && batch[i + 1] in Unfinished(s.worker);
    case _ =>
  }

  /** The items left to finish: the same, the batch just taken, or all but the one just done. */
  lemma UnfinishedStep(s: State)
    requires Shaped(s) && ItemOk(s) && Enabled(s, WorkerThread)
    ensures var s' := WorkerStep(s);
            match s.worker
            case TakeG => Unfinished(s'.worker) == s.work
            case SetDone(batch, i) => Unfinished(s.worker) == [batch[i]] + Unfinished(s'.worker)
            case _ => Unfinished(s'.worker) == Unfinished(s.worker)
  {
    hide SetResps, LastAnswers;
    match s.worker
    case UnlockG(batch) => assert batch[0..] == batch;
    case SetDone(batch, i) => assert batch[i..] == [batch[i]] + batch[i + 1..];
    case _ =>
  }

  /** Get takes all queued work, in order, and leaves the queue empty. */
  lemma GetTakesAll(s: State)
    requires Shaped(s) && ItemOk(s) && s.worker.TakeG?
    ensures var s' := WorkerStep(s);
            && s'.work == [] && s'.worker == UnlockG(s.work) && s'.batches == s.batches + [s.work]
            && s'.callers == s.callers && s'.log == s.log && s'.done == s.done && s'.resp == s.resp
  {
  }

  lemma WorkerKeepsQLock(s: State)
    requires Shaped(s) && ItemOk(s) && Enabled(s, WorkerThread) && QLockOk(s)
    ensures QLockOk(WorkerStep(s))
  {
    hide SetResps, Unfinished;
    match s.worker
    case SignalF(_, _) =>
    case _ =>
  }

  lemma WorkerKeepsWLock(s: State)
    requires Shaped(s) && ItemOk(s) && Enabled(s, WorkerThread) && WLockOk(s)
    requires ItemOk(WorkerStep(s))
    ensures WLockOk(WorkerStep(s))
  {
    hide SetResps, Unfinished;
    match s.worker
    case LockF(_, _) =>
    case SignalF(_, _) =>
    case UnlockF(_, _) =>
    case _ =>
  }

  lemma FlattenAppend(batches: seq<seq<nat>>, batch: seq<nat>)
    ensures Flatten(batches + [batch]) == Flatten(batches) + batch
  {
    assert (batches + [batch])[..|batches|] == batches;
  }

  lemma WorkerKeepsOrder(s: State)
    requires Shaped(s) && ItemOk(s) && Enabled(s, WorkerThread) && OrderOk(s)
    ensures OrderOk(WorkerStep(s))
  {
    hide Flatten, SetResps;
    var s' := WorkerStep(s);
    assert s'.log == s.log && |s'.callers| == |s.callers|;
    assert forall id: nat | id < |s.callers| :: Appended(s'.callers[id]) <==> Appended(s.callers[id]);
    if s.worker.TakeG? {
      FlattenAppend(s.batches, s.work);
    }
  }

  lemma TakeKeepsDone(s: State)
    requires Inv(s) && s.worker.TakeG?
    ensures DoneOk(WorkerStep(s))
  {
    hide QLockOk, WLockOk, RespOk, WakeupOk, Flatten;
    var n := |Flatten(s.batches)|;
    assert s.log[n..] == s.work;
    forall i: nat, j: nat | i < j < |s.work|
      ensures s.work[i] != s.work[j]
    {
      assert s.log[n + i] == s.work[i] && s.log[n + j] == s.work[j];
    }
  }

  lemma SetDoneKeepsDone(s: State)
    requires Inv(s) && s.worker.SetDone?
    ensures DoneOk(WorkerStep(s))
  {
    hide QLockOk, WLockOk, RespOk, WakeupOk, OrderOk, Unfinished;
    UnfinishedStep(s);
    HeadAndRest(Item(s.worker), Unfinished(WorkerStep(s).worker));
  }

  lemma HeadAndRest(x: nat, rest: seq<nat>)
    ensures forall id :: id in [x] + rest <==> id == x || id in rest
    ensures (forall i: nat, j: nat | i < j < |[x] + rest| :: ([x] + rest)[i] != ([x] + rest)[j]) ==>
              x !in rest && forall i: nat, j: nat | i < j < |rest| :: rest[i] != rest[j]
  {
    var all := [x] + rest;
    if forall i: nat, j: nat | i < j < |all| :: all[i] != all[j] {
      forall i: nat, j: nat | i < j < |rest|
        ensures rest[i] != rest[j]
      {
        assert all[i + 1] != all[j + 1];
      }
      forall i: nat | i < |rest|
        ensures rest[i] != x
      {
        assert all[0] != all[i + 1];
      }
    }
  }

  lemma OtherKeepsDone(s: State)
    requires Shaped(s) && ItemOk(s) && Enabled(s, WorkerThread) && DoneOk(s) && !s.worker.TakeG? && !s.worker.SetDone?
    requires ItemOk(WorkerStep(s)) && Unfinished(WorkerStep(s).worker) == Unfinished(s.worker)
    ensures DoneOk(WorkerStep(s))
  {
    hide SetResps, Unfinished;
  }

  lemma WorkerKeepsDone(s: State)
    requires Inv(s) && Enabled(s, WorkerThread)
    ensures Shaped(WorkerStep(s)) && ItemOk(WorkerStep(s)) && DoneOk(WorkerStep(s))
  {
    hide QLockOk, WLockOk, RespOk, WakeupOk, OrderOk, DoneOk, Unfinished, SetResps;
    WorkerKeepsItem(s);
    if s.worker.TakeG? {
      TakeKeepsDone(s);
    } else if s.worker.SetDone? {
      SetDoneKeepsDone(s);
    } else {
      UnfinishedStep(s);
      OtherKeepsDone(s);
    }
  }

  lemma WorkerKeepsResp(s: State)
    requires Shaped(s) && ItemOk(s) && Enabled(s, WorkerThread) && RespOk(s)
    requires s.worker.SignalF? ==> s.done[Item(s.worker)]
    ensures RespOk(WorkerStep(s))
  {
    hide SetResps, LastAnswers;
  }

  lemma SignalledIsDone(s: State)
    requires Shaped(s) && ItemOk(s) && DoneOk(s) && s.worker.SignalF?
    ensures s.done[Item(s.worker)]
  {
  }

  // ---- answers

  predicate AllDistinct(ids: seq<nat>) {
    forall i: nat, j: nat | i < j < |ids| :: ids[i] != ids[j]
  }

  /** Each item of the batch gets the answer of its position; no other response changes. */
  lemma {:induction false} SetRespsAt(resp: seq<Option<WQResp>>, batch: seq<nat>, answer: nat -> WQResp)
    requires AllDistinct(batch) && forall i: nat | i < |batch| :: batch[i] < |resp|
    ensures forall i: nat | i < |batch| :: SetResps(resp, batch, answer)[batch[i]] == Some(answer(i))
    ensures forall id: nat | id < |resp| && id !in batch :: SetResps(resp, batch, answer)[id] == resp[id]
  {
    if batch != [] {
      var n := |batch| - 1;
      SetRespsAt(resp, batch[..n], answer);
      assert batch[..n] + [batch[n]] == batch;
    }
  }

  lemma {:induction false} InFlatten(batches: seq<seq<nat>>, b: nat, i: nat)
    requires b < |batches| && i < |batches[b]|
    ensures batches[b][i] in Flatten(batches)
  {
    var n := |batches| - 1;
    if b < n {
      InFlatten(batches[..n], b, i);
    }
  }

  lemma {:induction false} FlattenIndex(batches: seq<seq<nat>>, id: nat) returns (b: nat, i: nat)
    requires id in Flatten(batches)
    ensures b < |batches| && i < |batches[b]| && batches[b][i] == id
  {
    var n := |batches| - 1;
    if id in batches[n] {
      b := n;
      i :| i < |batches[n]| && batches[n][i] == id;
    } else {
      b, i := FlattenIndex(batches[..n], id);
    }
  }

  lemma DistinctParts(x: seq<nat>, y: seq<nat>)
    requires AllDistinct(x + y)
    ensures AllDistinct(x) && AllDistinct(y) && forall id :: id in x ==> id !in y
  {
    var all := x + y;
    forall i: nat, j: nat | i < j < |x|
      ensures x[i] != x[j]
    {
      assert all[i] != all[j];
    }
    forall i: nat, j: nat | i < j < |y|
      ensures y[i] != y[j]
    {
      assert all[|x| + i] != all[|x| + j];
    }
    forall i: nat, j: nat | i < |x| && j < |y|
      ensures x[i] != y[j]
    {
      assert all[i] != all[|x| + j];
    }
  }

  /** A call is at one position of one batch. */
  lemma {:induction false} OnePlace(batches: seq<seq<nat>>, b: nat, i: nat, b': nat, i': nat)
    requires AllDistinct(Flatten(batches)) && b <= b' < |batches| && i < |batches[b]| && i' < |batches[b']|
    requires batches[b][i] == batches[b'][i']
    ensures b == b' && i == i'
  {
    var n := |batches| - 1;
    DistinctParts(Flatten(batches[..n]), batches[n]);
    if b' < n {
      OnePlace(batches[..n], b, i, b', i');
    } else if b < n {
      InFlatten(batches[..n], b, i);
    } else {
    }
  }

  /** The batch that the worker has just taken. */
  lemma LastBatch(s: State)
    requires Shaped(s) && OrderOk(s) && AnswerOk(s) && s.worker.UnlockG?
    ensures AllDistinct(Flatten(s.batches)) && AllDistinct(s.worker.batch)
    ensures forall i: nat | i < |s.worker.batch| :: s.worker.batch[i] < |s.resp|
  {
    hide Flatten;
    var n := |s.batches| - 1;
    assert AllDistinct(s.log);
    DistinctParts(Flatten(s.batches), s.work);
    FlattenLast(s.batches);
    DistinctParts(Flatten(s.batches[..n]), s.batches[n]);
    forall i: nat | i < |s.worker.batch|
      ensures s.worker.batch[i] < |s.resp|
    {
      InFlatten(s.batches, n, i);
      assert s.worker.batch[i] in s.log;
    }
  }

  lemma FlattenLast(batches: seq<seq<nat>>)
    requires batches != []
    ensures Flatten(batches) == Flatten(batches[..|batches| - 1]) + batches[|batches| - 1]
  {
  }

  lemma UnlockKeepsAnswer(s: State)
    requires Shaped(s) && ItemOk(s) && OrderOk(s) && AnswerOk(s) && s.worker.UnlockG?
    ensures AnswerOk(WorkerStep(s))
  {
    hide Flatten, SetResps, AllReqs, OrderOk;
    var s', batch, last := WorkerStep(s), s.worker.batch, |s.batches| - 1;
    LastBatch(s);
    SetRespsAt(s.resp, batch, LastAnswers(s));
    assert s.batches[..last + 1] == s.batches;
    forall id: nat, b: nat, i: nat | Placed(s', id, b, i) && Answered(s', b)
      ensures id < |s'.resp| && s'.resp[id] == Some(AnswerAt(s', b, i))
    {
      if b < last {
        assert Placed(s, id, b, i) && Answered(s, b);
        if id in batch {
          var j: nat :| j < |batch| && batch[j] == id;
          OnePlace(s.batches, b, i, last, j);
        }
      } else {
        assert batch[i] == id;
      }
    }
  }

  lemma WorkerKeepsAnswer(s: State)
    requires Shaped(s) && ItemOk(s) && Enabled(s, WorkerThread) && OrderOk(s) && AnswerOk(s)
    ensures AnswerOk(WorkerStep(s))
  {
    hide Flatten, SetResps, AllReqs, OrderOk, LastAnswers;
    if s.worker.UnlockG? {
      UnlockKeepsAnswer(s);
    } else {
      var s' := WorkerStep(s);
      assert s'.calls == s.calls && s'.resp == s.resp && s.batches <= s'.batches;
      forall id: nat, b: nat, i: nat | Placed(s', id, b, i) && Answered(s', b)
        ensures id < |s'.resp| && s'.resp[id] == Some(AnswerAt(s', b, i))
      {
        assert b < |s.batches|;
        assert s'.batches[..b + 1] == s.batches[..b + 1] && s'.batches[b] == s.batches[b];
        assert Placed(s, id, b, i) && Answered(s, b);
      }
    }
  }

  lemma WorkerKeepsWakeup(s: State)
    requires Shaped(s) && ItemOk(s) && Enabled(s, WorkerThread) && WakeupOk(s) && WLockOk(s) && QLockOk(s)
    ensures WakeupOk(WorkerStep(s))
  {
    hide SetResps, Unfinished;
    match s.worker
    case CheckG =>
    case SetDone(_, _) =>
    case SignalF(_, _) =>
    case _ =>
  }

  // ---- every run

  lemma StepKeepsInv(s: State, t: Thread)
    requires Inv(s) && Enabled(s, t)
    ensures Inv(Step(s, t))
  {
    hide QLockOk, WLockOk, OrderOk, DoneOk, RespOk, WakeupOk, AnswerOk, CallerStep, WorkerStep;
    match t
    case DoCall(id) =>
      CallKeepsItem(s, id);
      CallKeepsQLock(s, id);
      CallKeepsWLock(s, id);
      CallKeepsOrder(s, id);
      CallKeepsDone(s, id);
      CallKeepsResp(s, id);
      CallKeepsAnswer(s, id);
      CallKeepsWakeup(s, id);
    case WorkerThread =>
      WorkerKeepsItem(s);
      WorkerKeepsQLock(s);
      WorkerKeepsWLock(s);
      WorkerKeepsOrder(s);
      WorkerKeepsDone(s);
      if s.worker.SignalF? {
        SignalledIsDone(s);
      }
      WorkerKeepsResp(s);
      WorkerKeepsAnswer(s);
      WorkerKeepsWakeup(s);
  }

  /** The scheduler picks a thread; a thread that cannot step now does not. */
  function Move(s: State, t: Thread): (s': State)
    ensures |s'.callers| == |s.callers| && (Shaped(s) ==> Shaped(s'))
  {
    if Shaped(s) && ItemOk(s) && Enabled(s, t) then Step(s, t) else s
  }

  /** n calls and the worker, under an arbitrary schedule. */
  ghost function Run(calls: Calls, schedule: seq<Thread>): (s: State)
    ensures Shaped(s) && |s.callers| == |calls.reqs| && s.calls == calls
  {
    if schedule == [] then Init(calls) else Move(Run(calls, schedule[..|schedule| - 1]), schedule[|schedule| - 1])
  }

  lemma {:induction false} RunInv(calls: Calls, schedule: seq<Thread>)
    ensures Inv(Run(calls, schedule))
  {
    hide Inv, Enabled, Step;
    if schedule == [] {
      InitInv(calls);
    } else {
      var s, t := Run(calls, schedule[..|schedule| - 1]), schedule[|schedule| - 1];
      RunInv(calls, schedule[..|schedule| - 1]);
      if Shaped(s) && ItemOk(s) && Enabled(s, t) {
        StepKeepsInv(s, t);
      }
    }
  }

  // ---- safety

  /** In every interleaving: the calls enter the queue in some order, each at most once, and the
      batches cut that order into consecutive pieces, with the rest still queued. */
  lemma EachCallInOneBatch(calls: Calls, schedule: seq<Thread>)
    ensures var s := Run(calls, schedule);
            && Flatten(s.batches) + s.work == s.log
            && (forall i: nat, j: nat | i < j < |s.log| :: s.log[i] != s.log[j])
            && (forall id: nat | id < |calls.reqs| && s.callers[id].Returned? :: id in Flatten(s.batches))
  {
    hide QLockOk, WLockOk, WakeupOk, Flatten, Run;
    RunInv(calls, schedule);
  }

  /** A call that has returned was finished by the worker, and has the answer to its own request: the
      one computed for its position in the one batch that has it. */
  lemma ReturnedHasResponse(calls: Calls, schedule: seq<Thread>, id: nat) returns (b: nat, i: nat)
    requires id < |calls.reqs| && Run(calls, schedule).callers[id].Returned?
    ensures var s := Run(calls, schedule);
            && s.done[id] && Placed(s, id, b, i) && AllReqs(calls.reqs, s.batches[..b + 1])[b][i] == calls.reqs[id]
            && s.resp[id] == Some(calls.answer(AllReqs(calls.reqs, s.batches[..b + 1]), i))
    ensures forall b': nat, i': nat | Placed(Run(calls, schedule), id, b', i') :: b' == b && i' == i
  {
    hide QLockOk, WLockOk, WakeupOk, Flatten, Run, AllReqs;
    var s := Run(calls, schedule);
    RunInv(calls, schedule);
    DoneInBatch(s, id);
    b, i := FlattenIndex(s.batches, id);
    AnsweredIfDone(s, id, b, i);
    forall b': nat, i': nat | Placed(s, id, b', i')
      ensures b' == b && i' == i
    {
      if b <= b' {
        OnePlace(s.batches, b, i, b', i');
      } else {
        OnePlace(s.batches, b', i', b, i);
      }
    }
    OwnRequest(s, id, b, i);
  }

  lemma OwnRequest(s: State, id: nat, b: nat, i: nat)
    requires Placed(s, id, b, i) && id < |s.calls.reqs|
    ensures AllReqs(s.calls.reqs, s.batches[..b + 1])[b][i] == s.calls.reqs[id]
  {
  }

  lemma DoneInBatch(s: State, id: nat)
    requires Shaped(s) && OrderOk(s) && DoneOk(s) && RespOk(s) && id < |s.callers| && s.callers[id].Returned?
    ensures s.done[id] && id in Flatten(s.batches) && id !in Unfinished(s.worker) && AllDistinct(Flatten(s.batches))
  {
    hide Flatten, Unfinished;
    assert id in s.log;
    assert AllDistinct(s.log);
    DistinctParts(Flatten(s.batches), s.work);
  }

  lemma AnsweredIfDone(s: State, id: nat, b: nat, i: nat)
    requires AnswerOk(s) && Placed(s, id, b, i) && id !in Unfinished(s.worker)
    ensures id < |s.resp| && s.resp[id] == Some(AnswerAt(s, b, i))
  {
    hide AllReqs;
  }

  /** No wake-up is lost: a sleeping worker with queued work, or a sleeping call that is done, has
      a signal pending, from the one thread that holds the lock. */
  lemma NoLostWakeup(calls: Calls, schedule: seq<Thread>)
    ensures var s := Run(calls, schedule);
            && (s.worker.AsleepG? && s.work != [] ==>
                  s.qLock.Caller? && s.qLock.id < |calls.reqs| && s.callers[s.qLock.id].SignalQ?)
            && (forall id: nat | id < |calls.reqs| && s.callers[id].AsleepW? && s.done[id] ::
                  s.worker.SignalF? && s.worker.i < |s.worker.batch| && Item(s.worker) == id)
  {
    hide QLockOk, WLockOk, RespOk, OrderOk, DoneOk, Run;
    RunInv(calls, schedule);
  }

  // ---- liveness

  /** While a call has not returned, some thread can step: there is no deadlock. */
  lemma NoDeadlock(s: State, id: nat) returns (t: Thread)
    requires Inv(s) && id < |s.callers| && !s.callers[id].Returned?
    ensures Enabled(s, t)
  {
    hide Flatten, RespOk;
    if s.qLock.Caller? {
      t := DoCall(s.qLock.id);
    } else if s.qLock.Worker? {
      t := WorkerThread;
    } else if Finishing(s.worker) && (!s.worker.LockF? || s.wLock[Item(s.worker)] == Free) {
      t := WorkerThread;
    } else if s.worker.LockF? {
      t := DoCall(Item(s.worker));
    } else if !s.worker.AsleepG? {
      t := WorkerThread;
    } else {
      t := DoCall(id);
    }
  }

  /** How far a call is from returning. */
  function CallerRank(pc: CallerPc, done: bool): nat {
    match pc
    case Start => 20 case Append => 19 case SignalQ => 18
    case UnlockQ => 7 case LockW => 6
    case CheckW => if done then 2 else 5
    case AsleepW => 4 case WokenW => 3 case UnlockW => 1 case Returned => 0
  }

  function CallRank(pc: CallerPc, done: bool): nat {
    CallerRank(pc, done) + if done then 0 else 20
  }

  function WorkerRank(w: WorkerPc): nat {
    match w
    case LockG => 8 case WokenG => 8 case CheckG => 7 case TakeG => 6 case AsleepG => 1
    case UnlockG(batch) => if batch == [] then 9 else 5
    case LockF(_, _) => 4 case SetDone(_, _) => 3
    case SignalF(_, _) => 15 case UnlockF(_, _) => 14
  }

  function Ranks(callers: seq<CallerPc>, done: seq<bool>): nat
    requires |callers| == |done|
  {
    if callers == [] then 0
    else Ranks(callers[..|callers| - 1], done[..|callers| - 1]) + CallRank(callers[|callers| - 1], done[|callers| - 1])
  }

  function Measure(s: State): nat
    requires Shaped(s)
  {
    Ranks(s.callers, s.done) + WorkerRank(s.worker)
  }

  lemma {:induction false} RanksUpdate(callers: seq<CallerPc>, done: seq<bool>, id: nat, pc: CallerPc, d: bool)
    requires |callers| == |done| && id < |callers|
    ensures Ranks(callers[id := pc], done[id := d]) + CallRank(callers[id], done[id])
            == Ranks(callers, done) + CallRank(pc, d)
  {
    hide CallRank;
    var n := |callers| - 1;
    if id < n {
      assert callers[id := pc][..n] == callers[..n][id := pc] && done[id := d][..n] == done[..n][id := d];
      RanksUpdate(callers[..n], done[..n], id, pc, d);
    } else {
      assert callers[id := pc][..n] == callers[..n] && done[id := d][..n] == done[..n];
    }
  }

  lemma ItemNotDone(s: State)
    requires Inv(s) && s.worker.SetDone?
    ensures !s.done[Item(s.worker)]
  {
    hide QLockOk, WLockOk, OrderOk, RespOk, WakeupOk;
    assert Item(s.worker) == Unfinished(s.worker)[0];
  }

  lemma CallDecreases(s: State, id: nat)
    requires Shaped(s) && ItemOk(s) && RespOk(s) && Enabled(s, DoCall(id))
    ensures Shaped(CallerStep(s, id)) && Measure(CallerStep(s, id)) < Measure(s)
  {
    hide Ranks;
    var s' := CallerStep(s, id);
    RanksUpdate(s.callers, s.done, id, s'.callers[id], s.done[id]);
    assert s.done[id := s.done[id]] == s.done;
  }

  lemma WorkerDecreases(s: State)
    requires Shaped(s) && ItemOk(s) && WakeupOk(s) && Enabled(s, WorkerThread)
    requires s.worker.SetDone? ==> !s.done[Item(s.worker)]
    ensures Shaped(WorkerStep(s)) && Measure(WorkerStep(s)) < Measure(s)
  {
    hide Ranks, SetResps;
    var s' := WorkerStep(s);
    if s.worker.SetDone? || s.worker.SignalF? {
      var id := Item(s.worker);
      RanksUpdate(s.callers, s.done, id, s'.callers[id], s'.done[id]);
      assert s.done[id := s'.done[id]] == s'.done && s.callers[id := s'.callers[id]] == s'.callers;
    }
  }

  /** Every step makes progress. */
  lemma StepDecreases(s: State, t: Thread)
    requires Inv(s) && Enabled(s, t)
    ensures Shaped(Step(s, t)) && Measure(Step(s, t)) < Measure(s)
  {
    hide OrderOk, DoneOk, QLockOk, WLockOk, RespOk, WakeupOk, Measure, CallerStep, WorkerStep, Enabled;
    match t
    case DoCall(id) => CallDecreases(s, id);
    case WorkerThread =>
      if s.worker.SetDone? {
        ItemNotDone(s);
      }
      WorkerDecreases(s);
  }

  /** How many of the scheduled steps were taken. */
  ghost function Moves(calls: Calls, schedule: seq<Thread>): nat {
    if schedule == [] then 0
    else
      var s, t := Run(calls, schedule[..|schedule| - 1]), schedule[|schedule| - 1];
      Moves(calls, schedule[..|schedule| - 1]) + if ItemOk(s) && Enabled(s, t) then 1 else 0
  }

  lemma {:induction false} InitRanks(n: nat)
    ensures Ranks(seq(n, _ => Start), seq(n, _ => false)) == 40 * n
  {
    if n > 0 {
      InitRanks(n - 1);
      var callers, done := seq(n, _ => Start), seq(n, _ => false);
      assert callers[..n - 1] == seq(n - 1, _ => Start) && done[..n - 1] == seq(n - 1, _ => false);
    }
  }

  /** Under any schedule, n calls and the worker take at most 40 n + 8 steps. */
  lemma {:induction false} RunsEnd(calls: Calls, schedule: seq<Thread>)
    ensures Moves(calls, schedule) + Measure(Run(calls, schedule)) <= 40 * |calls.reqs| + 8
  {
    hide Inv, Measure, Enabled, Step;
    if schedule == [] {
      InitMeasure(calls);
    } else {
      var s, t := Run(calls, schedule[..|schedule| - 1]), schedule[|schedule| - 1];
      RunInv(calls, schedule[..|schedule| - 1]);
      RunsEnd(calls, schedule[..|schedule| - 1]);
      if ItemOk(s) && Enabled(s, t) {
        StepDecreases(s, t);
      }
    }
  }

  lemma InitMeasure(calls: Calls)
    ensures Measure(Init(calls)) == 40 * |calls.reqs| + 8
  {
    InitRanks(|calls.reqs|);
  }

  /** So every run that goes on until no thread can step ends with every call returned, done, and
      with its response; and it is never stuck before that. */
  lemma StuckMeansReturned(calls: Calls, schedule: seq<Thread>)
    ensures var s := Run(calls, schedule);
            && ItemOk(s)
            && ((forall t :: !Enabled(s, t)) ==>
                  forall id: nat | id < |calls.reqs| :: s.callers[id].Returned? && s.done[id] && s.resp[id].Some?)
  {
    hide Enabled, Flatten, Run, Inv;
    var s := Run(calls, schedule);
    RunInv(calls, schedule);
    InvItem(s);
    if forall t :: !Enabled(s, t) {
      forall id: nat | id < |calls.reqs|
        ensures s.callers[id].Returned? && s.done[id] && s.resp[id].Some?
      {
        if !s.callers[id].Returned? {
          var t := NoDeadlock(s, id);
        }
        var b, i := ReturnedHasResponse(calls, schedule, id);
      }
    }
  }

  lemma InvItem(s: State)
    requires Inv(s)
    ensures ItemOk(s)
  {
    hide QLockOk, WLockOk, OrderOk, DoneOk, RespOk, WakeupOk;
  }
}
