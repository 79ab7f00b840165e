/** updAdtrsAll of alicebob/helpers.go: an auditor is sent the server's epochs, one after the other, until
    the server has no more. */
module KtSync {
  import opened Bytes
  import opened KtTypes
  import opened KtServer
  import opened KtServerProofs
  import opened KtServerImpl
  import Auditor = KtAuditor

  /** Ends after exactly the epochs of the server; the auditor rejects none, and has replayed them all. */
  method UpdAdtrsAll(serv: Server, adtr: Auditor.Auditor) returns (epoch: nat)
    requires serv.Valid() && ServInv(serv.c, serv.k, serv.State())
    requires adtr.Valid() && adtr.State() == Auditor.INIT && adtr.c == serv.c
    requires {serv, serv.keyMap} + serv.keyMap.repr !! {adtr, adtr.keyMap} + adtr.keyMap.repr
    modifies adtr`histInfo, adtr`maps, adtr.keyMap.repr
    ensures epoch == |serv.epochHist|
    ensures adtr.Valid() && adtr.State() == Auditor.Run(serv.c, adtr.sk, Replay(serv.State(), |serv.epochHist|))
    ensures adtr.maps == serv.maps
  {
    hide ServInv, Auditor.AfterUpdate, Auditor.Inv, Auditor.EntryOk;
    ghost var st := serv.State();
    epoch := 0;
    while true
      invariant 0 <= epoch <= |serv.epochHist| < U64_BOUND && serv.State() == st
      invariant adtr.Valid() && fresh(adtr.keyMap.repr - old(adtr.keyMap.repr))
      invariant adtr.State() == Auditor.Run(serv.c, adtr.sk, Replay(st, epoch))
      decreases |serv.epochHist| - epoch
    {
      var upd, err := serv.Audit(epoch);
      if err {
        break;
      }
      NextReplayed(serv.c, serv.k, adtr.sk, st, epoch);
      ReplayedLength(serv.c, serv.k, adtr.sk, st, epoch);
      var err1 := adtr.Update(upd);
      assert !err1;
      epoch := epoch + 1;
    }
    ReplayedLength(serv.c, serv.k, adtr.sk, st, epoch);
  }

  lemma NextReplayed(c: Crypto, k: ServKeys, sk: Bytes, st: ServState, epoch: nat)
    requires ServInv(c, k, st) && epoch < |st.hist|
    ensures |Auditor.Run(c, sk, Replay(st, epoch)).maps| < U64_BOUND
    ensures Auditor.AfterUpdate(c, sk, Auditor.Run(c, sk, Replay(st, epoch)), ServAudit(st, epoch).value)
            == (Auditor.Run(c, sk, Replay(st, epoch + 1)), false)
  {
    hide ServInv, Auditor.AfterUpdate;
    HistFits(c, k, st);
    AuditorAccepts(c, k, sk, st, epoch + 1);
    assert Replay(st, epoch + 1)[..epoch] == Replay(st, epoch);
  }

  lemma ReplayedLength(c: Crypto, k: ServKeys, sk: Bytes, st: ServState, epoch: nat)
    requires ServInv(c, k, st) && epoch <= |st.hist|
    ensures |st.hist| == |st.maps| < U64_BOUND
    ensures Auditor.Run(c, sk, Replay(st, epoch)).maps == st.maps[..epoch]
  {
    HistFits(c, k, st);
    AuditorAccepts(c, k, sk, st, epoch);
  }

  lemma HistFits(c: Crypto, k: ServKeys, st: ServState)
    requires ServInv(c, k, st)
    ensures 0 < |st.hist| == |st.maps| < U64_BOUND
  {
    hide Registered, EpochOk;
  }
}
