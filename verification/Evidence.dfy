/** kt/evidence.go: checking signed digests, and evidence of two conflicting ones. */
module Evidence {
  import opened Bytes
  import opened KtTypes

  /** CheckSigDig returns no error. */
  predicate SigDigOk(c: Crypto, o: SigDig, pk: Bytes) {
    c.sigOk(pk, PreSigDigEncode([], PreSigDig(o.epoch, o.dig)), o.sig)
  }

  datatype Evid = Evid(sigDig0: SigDig, sigDig1: SigDig)

  /** Evid.Check returns no error. */
  predicate EvidOk(c: Crypto, e: Evid, servPk: Bytes) {
    && SigDigOk(c, e.sigDig0, servPk)
    && SigDigOk(c, e.sigDig1, servPk)
    && e.sigDig0.epoch == e.sigDig1.epoch
    && e.sigDig0.dig != e.sigDig1.dig
  }

  /** The messages signed by an owner who signs one digest per epoch, digs[e] for epoch e. */
  ghost function SignedDigs(digs: seq<Slice>): set<Bytes>
    requires |digs| <= U64_BOUND
  {
    set e: nat | e < |digs| :: PreSigDigEncode([], PreSigDig(e, digs[e]))
  }

  /** None of these signatures is a forgery under pk: those that are accepted are on messages that
      the key's owner has signed. */
  ghost predicate NoForgery(c: Crypto, pk: Bytes, signed: set<Bytes>, seen: set<SigDig>) {
    forall o | o in seen && SigDigOk(c, o, pk) :: PreSigDigEncode([], PreSigDig(o.epoch, o.dig)) in signed
  }

  /** A signature of such an owner is on the digest of that epoch. */
  lemma SignedDigOfEpoch(c: Crypto, pk: Bytes, digs: seq<Slice>, seen: set<SigDig>, o: SigDig)
    requires |digs| <= U64_BOUND
    requires NoForgery(c, pk, SignedDigs(digs), seen)
    requires o in seen && SigDigOk(c, o, pk)
    ensures o.epoch < |digs| && o.dig == digs[o.epoch]
  {
    var e: nat :| e < |digs| &&
      PreSigDigEncode([], PreSigDig(o.epoch, o.dig)) == PreSigDigEncode([], PreSigDig(e, digs[e]));
    PreSigDigInjective(PreSigDig(o.epoch, o.dig), PreSigDig(e, digs[e]));
  }

  /** No evidence ever checks out against a server that signs one digest per epoch. */
  lemma HonestNeverFramed(c: Crypto, servPk: Bytes, digs: seq<Slice>, e: Evid)
    requires |digs| <= U64_BOUND
    requires NoForgery(c, servPk, SignedDigs(digs), {e.sigDig0, e.sigDig1})
    ensures !EvidOk(c, e, servPk)
  {
    if EvidOk(c, e, servPk) {
      SignedDigOfEpoch(c, servPk, digs, {e.sigDig0, e.sigDig1}, e.sigDig0);
      SignedDigOfEpoch(c, servPk, digs, {e.sigDig0, e.sigDig1}, e.sigDig1);
    }
  }
}
