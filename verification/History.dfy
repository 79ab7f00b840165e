/** alicebob/history.go: a per-epoch history, and the list of puts it stands for. */
module History {
  import opened Bytes
  import opened KtTypes

  datatype HistEntry = HistEntry(isReg: bool, pk: Slice)

  const NO_ENTRY: HistEntry := HistEntry(false, [])

  function ExtendHist(hist: seq<HistEntry>, numEpochs: nat): (r: seq<HistEntry>)
    requires |hist| <= numEpochs
    ensures |r| == numEpochs
  {
    var last := if hist == [] then NO_ENTRY else hist[|hist| - 1];
    hist + seq(numEpochs - |hist|, _ => last)
  }

  /** extendHist of history.go; its caller must meet the assertion on the length. */
  method ExtendHistLoop(hist: seq<HistEntry>, numEpochs: nat) returns (newHist: seq<HistEntry>)
    requires |hist| <= numEpochs
    ensures newHist == ExtendHist(hist, numEpochs)
  {
    var last := NO_ENTRY;
    if |hist| != 0 {
      last := hist[|hist| - 1];
    }
    newHist := hist;
    for i := |hist| to numEpochs
      invariant newHist == hist + seq(i - |hist|, _ => last)
    {
      newHist := newHist + [last];
    }
  }

  /** Version v of a key: the epoch of the put, and the opening of the commitment to the key. */
  datatype PutRec = PutRec(epoch: U64, open: CommitOpen)

  ghost predicate Increasing(puts: seq<PutRec>) {
    forall i: nat, j: nat | i < j < |puts| :: puts[i].epoch < puts[j].epoch
  }

  /** The last put at or before epoch e. */
  function EntryAt(puts: seq<PutRec>, e: nat): HistEntry {
    if puts == [] then NO_ENTRY
    else
      var last := puts[|puts| - 1];
      if last.epoch <= e then HistEntry(true, last.open.val) else EntryAt(puts[..|puts| - 1], e)
  }

  /** The history agrees with the puts, and no put is later than its end. */
  ghost predicate Records(hist: seq<HistEntry>, puts: seq<PutRec>) {
    && Increasing(puts)
    && (puts != [] ==> puts[|puts| - 1].epoch < |hist|)
    && forall e: nat | e < |hist| :: hist[e] == EntryAt(puts, e)
  }

  /** Once all puts are in the past, the history stays constant. */
  lemma ExtendKeepsRecords(hist: seq<HistEntry>, puts: seq<PutRec>, numEpochs: nat)
    requires Records(hist, puts) && |hist| <= numEpochs
    ensures Records(ExtendHist(hist, numEpochs), puts)
  {
    var hist' := ExtendHist(hist, numEpochs);
    forall e: nat | e < numEpochs
      ensures hist'[e] == EntryAt(puts, e)
    {
      if e >= |hist| && puts != [] {
        assert hist'[e] == hist[|hist| - 1] == EntryAt(puts, |hist| - 1);
      }
    }
  }

  /** A put at an epoch past the history extends it by the latest change. */
  lemma AppendKeepsRecords(hist: seq<HistEntry>, puts: seq<PutRec>, put: PutRec)
    requires Records(hist, puts) && |hist| <= put.epoch
    ensures Records(ExtendHist(hist, put.epoch) + [HistEntry(true, put.open.val)], puts + [put])
  {
    ExtendKeepsRecords(hist, puts, put.epoch);
    assert (puts + [put])[..|puts|] == puts;
  }

  /** The entry of an epoch is version k exactly between its put and the next one. */
  lemma {:induction false} EntryIsVersion(puts: seq<PutRec>, e: nat, k: nat)
    requires Increasing(puts) && k < |puts| && puts[k].epoch <= e && (k + 1 < |puts| ==> puts[k + 1].epoch > e)
    ensures EntryAt(puts, e) == HistEntry(true, puts[k].open.val)
  {
    if k + 1 < |puts| {
      EntryIsVersion(puts[..|puts| - 1], e, k);
    }
  }

  lemma {:induction false} EntryBeforeFirst(puts: seq<PutRec>, e: nat)
    requires Increasing(puts) && (puts != [] ==> puts[0].epoch > e)
    ensures EntryAt(puts, e) == NO_ENTRY
  {
    if puts != [] {
      EntryBeforeFirst(puts[..|puts| - 1], e);
    }
  }
}
