/** The server object of kt/server.go: fields updated in place, proved against the functions that
    specify its answers and its batches. */
module KtServerImpl {
  import opened Bytes
  import opened MerkleTrie
  import opened MerkleProofs
  import opened KtTypes
  import opened KtClient
  import opened History
  import opened KtServer
  import opened KtServerProofs
  import Auditor = KtAuditor
  import Merkle

  /** What the first requests of all uids get, and every other request. */
  ghost function BatchResps(c: Crypto, k: ServKeys, st: ServState, reqs: seq<Req>): seq<WQResp>
    requires |st.hist| + 1 < U64_BOUND
  {
    seq(|reqs|, i requires 0 <= i < |reqs| =>
      if HasUid(reqs[..i], reqs[i].uid) then REJECTED
      else Answer(Mapper1For(c, AfterBatch(c, k, st, reqs), Mapper0Of(c, k, st, reqs[i]))))
  }

  /** What mapper0 prepared before the lock is right after it: the label it prepared for the new
      version is in the new map, and the label after it is not. */
  lemma PreparedLabels(c: Crypto, k: ServKeys, st: ServState, reqs: seq<Req>, uid: U64)
    requires LabelsInjective(c, k) && ServInv(c, k, st) && |st.hist| + 1 < U64_BOUND && HasUid(reqs, uid)
    ensures var m, out := KeyMapOf(AfterBatch(c, k, st, reqs)), Mapper0Of(c, k, st, FirstReq(reqs, uid));
            out.latestVrfHash in m && out.boundVrfHash !in m
  {
    hide MapLabel, OpenFor, CompMapVal, LabelsInjective, UserOk, ApplyAll, Accepted, HasUid, FirstReq;
    CommitKeepsInv(c, k, st, reqs);
    BatchVersions(c, k, |st.hist|, StartBatch(st), reqs, uid);
    UserFacts(c, k, st, uid);
    var st' := AfterBatch(c, k, st, reqs);
    UserFacts(c, k, st', uid);
    VersionsBound(c, k, UserOf(st.users, uid), Versions(st.log, uid), uid, |st.hist|);
    var ver := UserOf(st.users, uid).numVers;
    VersionInMap(c, k, KeyMapOf(st'), Versions(st'.log, uid), uid, ver);
    VersionInMap(c, k, KeyMapOf(st'), Versions(st'.log, uid), uid, ver + 1);
  }

  lemma AcceptedStep(reqs: seq<Req>, i: nat)
    requires i < |reqs|
    ensures Accepted(reqs[..i + 1]) == Accepted(reqs[..i]) + if HasUid(reqs[..i], reqs[i].uid) then [] else [reqs[i]]
  {
    assert reqs[..i + 1][..i] == reqs[..i];
  }

  /** One turn of the locked loop, on values; the uid's record is still what mapper0 read. */
  lemma CommitStep(c: Crypto, k: ServKeys, epoch: U64, start: Batch, work: seq<Req>, i: nat)
    requires i < |work|
    ensures var b := ApplyAll(c, k, epoch, start, Accepted(work[..i]));
            var b' := ApplyAll(c, k, epoch, start, Accepted(work[..i + 1]));
            if HasUid(work[..i], work[i].uid) then b' == b
            else b' == Apply(c, k, epoch, b, work[i])
                 && UserOf(b.users, work[i].uid) == UserOf(start.users, work[i].uid)
  {
    hide Apply, HasUid, Accepted, UserOf, Versions;
    AcceptedStep(work, i);
    var before := Accepted(work[..i]);
    BatchVersions(c, k, epoch, start, work[..i], work[i].uid);
    assert (before + [work[i]])[..|before|] == before && before + [] == before;
  }

  lemma StartOf(c: Crypto, k: ServKeys, st: ServState)
    ensures StartBatch(st) == Batch(KeyMapOf(st), map[], st.users, st.log)
    ensures ApplyAll(c, k, ToU64(|st.hist|), StartBatch(st), Accepted([])) == StartBatch(st)
  {
  }

  class Server {
    const c: Crypto
    const k: ServKeys
    const keyMap: Merkle.Tree
    var userInfo: Users
    var epochHist: seq<EpochInfo>
    ghost var maps: seq<KeyMap>
    ghost var log: Log

    ghost function State(): ServState
      reads this
    {
      ServState(userInfo, epochHist, maps, log)
    }

    ghost predicate Valid()
      reads this, keyMap, keyMap.repr
    {
      && keyMap.Valid() && keyMap.h == c.hash && this !in keyMap.repr
      && keyMap.Contents() == KeyMapOf(State()) && 0 < |epochHist| == |maps| < U64_BOUND
    }

    constructor (c: Crypto, k: ServKeys)
      ensures Valid() && this.c == c && this.k == k && fresh(keyMap) && fresh(keyMap.repr)
      ensures State() == ServInit(c, k)
    {
      hide SignEpoch, Merkle.Tree.Contents;
      this.c, this.k, userInfo, epochHist, maps, log := c, k, map[], [], [], map[];
      keyMap := new Merkle.Tree(c.hash);
      new;
      UpdEpochHist(map[]);
      maps := [map[]];
    }

    method UpdEpochHist(upd: map<Slice, Slice>)
      requires keyMap.Valid() && keyMap.h == c.hash
      modifies this`epochHist
      ensures epochHist == SignEpoch(c, k, old(epochHist), keyMap.Contents(), upd)
    {
      var dig := keyMap.Digest();
      var epoch := ToU64(|epochHist|);
      var sig := Auditor.SignDig(c, k.sigSk, epoch, dig);
      epochHist := epochHist + [EpochInfo(upd, dig, sig)];
    }

    // ---- Worker

    /** Rejects every request whose uid came before. */
    method MarkDuplicates(work: seq<Req>) returns (errs: seq<bool>)
      ensures |errs| == |work|
      ensures forall i: nat | i < |work| :: errs[i] <==> HasUid(work[..i], work[i].uid)
    {
      var uidSet: set<U64> := {};
      errs := [];
      for i := 0 to |work|
        invariant |errs| == i
        invariant forall uid :: uid in uidSet <==> HasUid(work[..i], uid)
        invariant forall j: nat | j < i :: errs[j] <==> HasUid(work[..j], work[j].uid)
      {
        errs := errs + [work[i].uid in uidSet];
        assert work[..i + 1] == work[..i] + [work[i]];
        HasUidAppend(work[..i], work[i]);
        uidSet := uidSet + {work[i].uid};
      }
    }

    method Mapper0(req: Req) returns (out: Mapper0Out)
      ensures out == Mapper0Of(c, k, State(), req)
    {
      var numVers := UserOf(userInfo, req.uid).numVers;
      return Mapper0For(c, k, req.uid, numVers, ToU64(|epochHist|), req.pk);
    }

    method Mapper1(out: Mapper0Out) returns (r: PutReply)
      requires Valid() && out.latestVrfHash in KeyMapOf(State()) && out.boundVrfHash !in KeyMapOf(State())
      ensures r == Mapper1For(c, State(), out)
    {
      hide ProofBytes, Merkle.Tree.Valid, Merkle.Tree.Contents;
      var latest := keyMap.Prove(out.latestVrfHash);
      assert latest.inTree;
      var bound := keyMap.Prove(out.boundVrfHash);
      assert !bound.inTree;
      return PutReply(GetDig(epochHist),
                      Memb(out.latestVrfProof, |epochHist| - 1, out.pkOpen, latest.proof),
                      NonMemb(out.boundVrfProof, bound.proof));
    }

    /** One turn of the locked loop. */
    method CommitOne(req: Req, out: Mapper0Out, upd: map<Slice, Slice>, ghost epoch: U64) returns (upd': map<Slice,
                     Slice>)
      requires keyMap.Valid() && this !in keyMap.repr
      requires out == Mapper0For(c, k, req.uid, UserOf(userInfo, req.uid).numVers, epoch, req.pk)
      modifies this`userInfo, this`log, keyMap.repr
      ensures keyMap.Valid() && fresh(keyMap.repr - old(keyMap.repr))
      ensures Batch(keyMap.Contents(), upd', userInfo, log)
              == Apply(c, k, epoch, old(Batch(keyMap.Contents(), upd, userInfo, log)), req)
    {
      hide Label, LabelProof, OpenFor, CompMapVal, ToU64, Merkle.Tree.Valid, Merkle.Tree.Contents;
      var lbl := out.latestVrfHash;
      var err0 := keyMap.Put(lbl, out.mapVal);
      assert !err0;
      upd' := upd[lbl := out.mapVal];
      var user := UserOf(userInfo, req.uid);
      userInfo := userInfo[req.uid := User(ToU64(user.numVers + 1), req.pk)];
      log := log[req.uid := Versions(log, req.uid) + [PutRec(epoch, out.pkOpen)]];
    }

    /** The locked part of Worker: the new entries, and the new signed epoch. */
    method CommitAll(work: seq<Req>, errs: seq<bool>, outs: seq<Mapper0Out>)
      requires Valid() && |epochHist| + 1 < U64_BOUND
      requires |errs| == |outs| == |work|
      requires forall i: nat | i < |work| :: errs[i] <==> HasUid(work[..i], work[i].uid)
      requires forall i: nat | i < |work| && !errs[i] :: outs[i] == Mapper0Of(c, k, State(), work[i])
      modifies this, keyMap.repr
      ensures Valid() && fresh(keyMap.repr - old(keyMap.repr))
      ensures State() == AfterBatch(c, k, old(State()), work)
    {
      hide Apply, Mapper0For, HasUid, SignEpoch, OpenFor, MapLabel, Merkle.Tree.Valid, Merkle.Tree.Contents;
      hide ApplyAll, Accepted, UserOf, Versions;
      ghost var st := State();
      StartOf(c, k, st);
      ghost var start, epoch := StartBatch(st), ToU64(|st.hist|);
      var upd: map<Slice, Slice> := map[];
      for i := 0 to |work|
        invariant keyMap.Valid() && this !in keyMap.repr && fresh(keyMap.repr - old(keyMap.repr))
        invariant epochHist == st.hist && maps == st.maps
        invariant Batch(keyMap.Contents(), upd, userInfo, log) == ApplyAll(c, k, epoch, start, Accepted(work[..i]))
      {
        CommitStep(c, k, epoch, start, work, i);
        if !errs[i] {
          upd := CommitOne(work[i], outs[i], upd, epoch);
        }
      }
      assert work[..|work|] == work;
      UpdEpochHist(upd);
      maps := maps + [keyMap.Contents()];
    }

    /** Worker, from the batch that it took from the queue to the answers. */
    method Worker(work: seq<Req>) returns (resps: seq<WQResp>)
      requires Valid() && LabelsInjective(c, k) && ServInv(c, k, State()) && |epochHist| + 1 < U64_BOUND
      modifies this, keyMap.repr
      ensures Valid() && fresh(keyMap.repr - old(keyMap.repr))
      ensures ServInv(c, k, State()) && State() == AfterBatch(c, k, old(State()), work)
      ensures resps == BatchResps(c, k, old(State()), work)
    {
      hide ServInv, LabelsInjective, Mapper0For, Mapper1For, HasUid, AfterBatch, Merkle.Tree.Valid;
      hide Merkle.Tree.Contents;
      ghost var st := State();
      CommitKeepsInv(c, k, st, work);
      var errs := MarkDuplicates(work);
      var outs: seq<Mapper0Out> := [];
      for i := 0 to |work|
        invariant |outs| == i
        invariant forall j: nat | j < i && !errs[j] :: outs[j] == Mapper0Of(c, k, st, work[j])
        modifies {}
      {
        var out := NO_OUT;
        if !errs[i] {
          out := Mapper0(work[i]);
        }
        outs := outs + [out];
      }
      CommitAll(work, errs, outs);
      resps := [];
      for i := 0 to |work|
        invariant |resps| == i
        invariant forall j: nat | j < i :: resps[j] == BatchResps(c, k, st, work)[j]
        modifies {}
      {
        if errs[i] {
          resps := resps + [REJECTED];
        } else {
          FirstReqIs(work, i);
          PreparedLabels(c, k, st, work, work[i].uid);
          var r := Mapper1(outs[i]);
          resps := resps + [Answer(r)];
        }
      }
    }

    // ---- read-only calls

    method GetHist(uid: U64, numVers: U64) returns (hist: Hist)
      requires Valid()
      requires forall ver: U64 | ver + 1 < numVers :: Label(c, k, uid, ver) in KeyMapOf(State())
      ensures hist == HistFor(c, k, KeyMapOf(State()), uid, numVers)
    {
      hide ProofBytes, Merkle.Tree.Valid, Merkle.Tree.Contents, Label, LabelProof;
      hist := [];
      if numVers == 0 {
        return;
      }
      for ver := 0 to numVers - 1
        invariant |hist| == ver
        invariant forall v: nat | v < ver :: hist[v] == MembHideFor(c, k, KeyMapOf(State()), uid, v)
      {
        var lbl := Label(c, k, uid, ver);
        var r := keyMap.Prove(lbl);
        assert r.inTree;
        hist := hist + [MembHide(LabelProof(c, k, uid, ver), r.val, r.proof)];
      }
    }

    method GetLatest(uid: U64, numVers: U64, pk: Slice) returns (isReg: bool, latest: Memb)
      requires Valid()
      requires numVers > 0 ==> var v := Lookup(KeyMapOf(State()), Label(c, k, uid, numVers - 1));
                               v.Some? && MapValPreDecode(v.value).Ok?
      ensures isReg <==> numVers != 0
      ensures latest == LatestFor(c, k, KeyMapOf(State()), uid, numVers, pk)
    {
      hide ProofBytes, Merkle.Tree.Valid, Merkle.Tree.Contents, Label, LabelProof, MapValPreDecode;
      if numVers == 0 {
        return false, NO_MEMB;
      }
      var lbl := Label(c, k, uid, numVers - 1);
      var r := keyMap.Prove(lbl);
      assert r.inTree;
      var valPre := MapValPreDecode(r.val);
      assert valPre.Ok?;
      var open := OpenFor(c, k, uid, numVers - 1, pk);
      return true, Memb(LabelProof(c, k, uid, numVers - 1), valPre.val.epoch, open, r.proof);
    }

    method GetBound(uid: U64, numVers: U64) returns (bound: NonMemb)
      requires Valid() && Label(c, k, uid, numVers) !in KeyMapOf(State())
      ensures bound == BoundFor(c, k, KeyMapOf(State()), uid, numVers)
    {
      hide ProofBytes, Merkle.Tree.Valid, Merkle.Tree.Contents, Label, LabelProof;
      var r := keyMap.Prove(Label(c, k, uid, numVers));
      assert !r.inTree;
      return NonMemb(LabelProof(c, k, uid, numVers), r.proof);
    }

    /** The server invariant makes every assertion of the read-only calls hold. */
    lemma ReadFacts(uid: U64)
      requires ServInv(c, k, State())
      ensures var m, numVers := KeyMapOf(State()), UserOf(userInfo, uid).numVers;
              && (forall ver: U64 | ver < numVers :: Label(c, k, uid, ver) in m)
              && Label(c, k, uid, numVers) !in m
              && (numVers > 0 ==> MapValPreDecode(m[Label(c, k, uid, numVers - 1)]).Ok?)
    {
      hide MapLabel, CompMapVal, MapValPreDecode, ServInv;
      var m, puts := KeyMapOf(State()), Versions(log, uid);
      UserFacts(c, k, State(), uid);
      forall ver: U64
        ensures Lookup(m, Label(c, k, uid, ver))
                == if ver < |puts| then Some(CompMapVal(c, puts[ver].epoch, puts[ver].open)) else None
      {
        VersionInMap(c, k, m, puts, uid, ver);
      }
      if puts != [] {
        DecodedEpoch(c, puts[|puts| - 1].epoch, puts[|puts| - 1].open);
      }
    }

    method Get(uid: U64) returns (r: GetReply)
      requires Valid() && ServInv(c, k, State())
      ensures r == ServGet(c, k, State(), uid)
    {
      hide ServInv, Label, HistFor, LatestFor, BoundFor, Merkle.Tree.Valid, Merkle.Tree.Contents, MapValPreDecode;
      ReadFacts(uid);
      var user := UserOf(userInfo, uid);
      var hist := GetHist(uid, user.numVers);
      var isReg, latest := GetLatest(uid, user.numVers, user.plainPk);
      var bound := GetBound(uid, user.numVers);
      return GetReply(GetDig(epochHist), hist, isReg, latest, bound);
    }

    method SelfMon(uid: U64) returns (r: SelfMonReply)
      requires Valid() && ServInv(c, k, State())
      ensures r == ServSelfMon(c, k, State(), uid)
    {
      hide ServInv, Label, BoundFor, Merkle.Tree.Valid, Merkle.Tree.Contents, MapValPreDecode;
      ReadFacts(uid);
      var bound := GetBound(uid, UserOf(userInfo, uid).numVers);
      return SelfMonReply(GetDig(epochHist), bound);
    }

    method Audit(epoch: U64) returns (p: UpdateProof, err: bool)
      ensures err <==> epoch >= |epochHist|
      ensures p == if err then UpdateProof(map[], []) else UpdateProof(epochHist[epoch].updates, epochHist[epoch].sig)
      ensures !err ==> ServAudit(State(), epoch) == Some(p)
    {
      if epoch >= |epochHist| {
        return UpdateProof(map[], []), true;
      }
      return UpdateProof(epochHist[epoch].updates, epochHist[epoch].sig), false;
    }
  }
}
