/** ServerPutReplyEncode and ServerPutReplyDecode of kt/serde.out.go, with the nil pointer that the
    response of a rejected put holds. */
module KtPutReply {
  import opened Bytes
  import opened KtTypes
  import opened KtClient
  import opened KtServer
  import opened KtServerProofs
  import opened KtServerImpl

  /** Bytes of any length behind their length as a uint64. */
  function WriteBytes(b0: Bytes, s: Bytes): Bytes {
    WriteInt(b0, ToU64(|s|)) + s
  }

  /** None where the encoder follows a nil pointer. */
  function SigDigEncode(b0: Bytes, o: Option<SigDig>): Option<Bytes> {
    match o
    case None => None
    case Some(dig) =>
      var b := WriteInt(b0, dig.epoch);
      var b := WriteSlice1D(b, dig.dig);
      Some(WriteBytes(b, dig.sig))
  }

  function MembEncode(b0: Bytes, o: Memb): Bytes {
    var b := WriteBytes(b0, o.labelProof);
    var b := WriteInt(b, o.epochAdded);
    var b := CommitOpenEncode(b, o.pkOpen);
    WriteBytes(b, o.merkleProof)
  }

  function NonMembEncode(b0: Bytes, o: NonMemb): Bytes {
    var b := WriteBytes(b0, o.labelProof);
    WriteBytes(b, o.merkleProof)
  }

  function ServerPutReplyEncode(b0: Bytes, o: WQResp): Option<Bytes> {
    match SigDigEncode(b0, o.dig)
    case None => None
    case Some(b) =>
      var b := MembEncode(b, o.lat);
      var b := NonMembEncode(b, o.bound);
      Some(WriteBool(b, o.err))
  }

  // ---- what the client gets

  function SigDigDecode(b0: Bytes): Dec<SigDig> {
    match ReadInt(b0) case Bad => Bad case Ok(a1, b1) =>
    match ReadSlice1D(b1) case Bad => Bad case Ok(a2, b2) =>
    match ReadSlice1D(b2) case Bad => Bad case Ok(a3, b3) =>
    Ok(SigDig(a1, a2, a3), b3)
  }

  function CommitOpenDecode(b0: Bytes): Dec<CommitOpen> {
    match ReadSlice1D(b0) case Bad => Bad case Ok(a1, b1) =>
    match ReadSlice1D(b1) case Bad => Bad case Ok(a2, b2) =>
    Ok(CommitOpen(a1, a2), b2)
  }

  function MembDecode(b0: Bytes): Dec<Memb> {
    match ReadSlice1D(b0) case Bad => Bad case Ok(a1, b1) =>
    match ReadInt(b1) case Bad => Bad case Ok(a2, b2) =>
    match CommitOpenDecode(b2) case Bad => Bad case Ok(a3, b3) =>
    match ReadSlice1D(b3) case Bad => Bad case Ok(a4, b4) =>
    Ok(Memb(a1, a2, a3, a4), b4)
  }

  function NonMembDecode(b0: Bytes): Dec<NonMemb> {
    match ReadSlice1D(b0) case Bad => Bad case Ok(a1, b1) =>
    match ReadSlice1D(b1) case Bad => Bad case Ok(a2, b2) =>
    Ok(NonMemb(a1, a2), b2)
  }

  function ServerPutReplyDecode(b0: Bytes): Dec<WQResp> {
    match SigDigDecode(b0) case Bad => Bad case Ok(a1, b1) =>
    match MembDecode(b1) case Bad => Bad case Ok(a2, b2) =>
    match NonMembDecode(b2) case Bad => Bad case Ok(a3, b3) =>
    match ReadBool(b3) case Bad => Bad case Ok(a4, b4) =>
    Ok(WQResp(Some(a1), a2, a3, a4), b4)
  }

  /** CallServPut: a reply that does not decode is an error, as is the server's. */
  function CallServPut(replyByt: Bytes): Option<PutReply> {
    match ServerPutReplyDecode(replyByt)
    case Bad => None
    case Ok(r, _) => ReplyOf(r)
  }

  /** All lengths fit their 8 bytes. */
  predicate LengthsFit(r: WQResp) {
    && (r.dig.Some? ==> |r.dig.value.sig| < U64_BOUND)
    && |r.lat.labelProof| < U64_BOUND && |r.lat.merkleProof| < U64_BOUND
    && |r.bound.labelProof| < U64_BOUND && |r.bound.merkleProof| < U64_BOUND
  }

  lemma BytesRead(s: Bytes, tail: Bytes)
    requires |s| < U64_BOUND
    ensures ReadSlice1D(WriteBytes([], s) + tail) == Ok(s, tail)
  {
    SliceRead(s, tail);
    assert WriteBytes([], s) == SliceBytes(s);
  }

  lemma WriteBytesAppends(b0: Bytes, s: Bytes)
    ensures WriteBytes(b0, s) == b0 + WriteBytes([], s)
  {
    hide ToU64;
  }

  lemma SigDigRead(o: SigDig, tail: Bytes)
    requires |o.sig| < U64_BOUND
    ensures SigDigEncode([], Some(o)).Some?
    ensures SigDigDecode(SigDigEncode([], Some(o)).value + tail) == Ok(o, tail)
  {
    hide WriteBytes, ReadSlice1D, ReadInt, SliceBytes;
    var x3 := WriteBytes([], o.sig) + tail;
    var x2 := SliceBytes(o.dig) + x3;
    WriteBytesAppends(WriteSlice1D(WriteInt([], o.epoch), o.dig), o.sig);
    assert SigDigEncode([], Some(o)).value + tail == IntBytes(o.epoch) + x2;
    IntRead(o.epoch, x2);
    SliceRead(o.dig, x3);
    BytesRead(o.sig, tail);
  }

  lemma CommitOpenRead(o: CommitOpen, tail: Bytes)
    ensures CommitOpenDecode(CommitOpenEncode([], o) + tail) == Ok(o, tail)
  {
    hide ReadSlice1D, SliceBytes;
    assert CommitOpenEncode([], o) + tail == SliceBytes(o.val) + (SliceBytes(o.rand) + tail);
    SliceRead(o.val, SliceBytes(o.rand) + tail);
    SliceRead(o.rand, tail);
  }

  lemma MembRead(o: Memb, tail: Bytes)
    requires |o.labelProof| < U64_BOUND && |o.merkleProof| < U64_BOUND
    ensures MembDecode(MembEncode([], o) + tail) == Ok(o, tail)
  {
    hide WriteBytes, ReadSlice1D, ReadInt, SliceBytes, CommitOpenDecode, IntBytes;
    var x4 := WriteBytes([], o.merkleProof) + tail;
    var x3 := CommitOpenEncode([], o.pkOpen) + x4;
    var x2 := IntBytes(o.epochAdded) + x3;
    var b := WriteInt(WriteBytes([], o.labelProof), o.epochAdded);
    WriteBytesAppends(CommitOpenEncode(b, o.pkOpen), o.merkleProof);
    assert CommitOpenEncode(b, o.pkOpen) == b + CommitOpenEncode([], o.pkOpen);
    assert MembEncode([], o) + tail == WriteBytes([], o.labelProof) + x2;
    BytesRead(o.labelProof, x2);
    IntRead(o.epochAdded, x3);
    CommitOpenRead(o.pkOpen, x4);
    BytesRead(o.merkleProof, tail);
  }

  lemma NonMembRead(o: NonMemb, tail: Bytes)
    requires |o.labelProof| < U64_BOUND && |o.merkleProof| < U64_BOUND
    ensures NonMembDecode(NonMembEncode([], o) + tail) == Ok(o, tail)
  {
    hide WriteBytes, ReadSlice1D;
    var x2 := WriteBytes([], o.merkleProof) + tail;
    WriteBytesAppends(WriteBytes([], o.labelProof), o.merkleProof);
    assert NonMembEncode([], o) + tail == WriteBytes([], o.labelProof) + x2;
    BytesRead(o.labelProof, x2);
    BytesRead(o.merkleProof, tail);
  }

  lemma EncodersAppend(b0: Bytes, lat: Memb, bound: NonMemb)
    ensures MembEncode(b0, lat) == b0 + MembEncode([], lat)
    ensures NonMembEncode(b0, bound) == b0 + NonMembEncode([], bound)
  {
    hide ToU64, IntBytes, SliceBytes;
  }

  /** A reply with a digest reaches the client as it is, whatever follows it on the wire. */
  lemma PutReplyRead(r: WQResp, tail: Bytes)
    requires r.dig.Some? && LengthsFit(r)
    ensures ServerPutReplyEncode([], r).Some?
    ensures ServerPutReplyDecode(ServerPutReplyEncode([], r).value + tail) == Ok(r, tail)
    ensures CallServPut(ServerPutReplyEncode([], r).value + tail) == ReplyOf(r)
  {
    hide MembEncode, NonMembEncode, SigDigEncode, SigDigDecode, MembDecode, NonMembDecode;
    var x4 := WriteBool([], r.err) + tail;
    var x3 := NonMembEncode([], r.bound) + x4;
    var x2 := MembEncode([], r.lat) + x3;
    SigDigRead(r.dig.value, x2);
    var b := SigDigEncode([], r.dig).value;
    EncodersAppend(b, r.lat, r.bound);
    EncodersAppend(MembEncode(b, r.lat), r.lat, r.bound);
    assert ServerPutReplyEncode([], r).value + tail == b + x2;
    MembRead(r.lat, x3);
    NonMembRead(r.bound, x4);
    assert x4[1..] == tail;
  }

  // ---- what the client rejects

  /** Bytes that are read are the encoding of what is read, but for the byte of the flag: all else is an
      error of the call. */
  lemma PutReplyExact(b: Bytes)
    ensures var r := ServerPutReplyDecode(b);
            r.Ok? ==>
              && r.val.dig.Some? && LengthsFit(r.val) && |b| > |r.rest|
              && var flag := b[|b| - |r.rest| - 1];
                 && (r.val.err <==> flag != 0)
                 && b == SigDigEncode([], r.val.dig).value + MembEncode([], r.val.lat) + NonMembEncode([], r.val.bound)
                         + [flag] + r.rest
  {
    hide SigDigDecode, MembDecode, NonMembDecode, SigDigEncode, MembEncode, NonMembEncode;
    SigDigExact(b);
    if ServerPutReplyDecode(b).Ok? {
      var b1 := SigDigDecode(b).rest;
      MembExact(b1);
      var b2 := MembDecode(b1).rest;
      NonMembExact(b2);
      var b3 := NonMembDecode(b2).rest;
      assert b3 == [b3[0]] + b3[1..];
      FlagLast(SigDigEncode([], Some(SigDigDecode(b).val)).value, MembEncode([], MembDecode(b1).val),
               NonMembEncode([], NonMembDecode(b2).val), b3[0], b3[1..], b);
    }
  }

  lemma FlagLast(x: Bytes, y: Bytes, z: Bytes, flag: Byte, rest: Bytes, b: Bytes)
    requires b == x + (y + (z + ([flag] + rest)))
    ensures |b| > |rest| && b[|b| - |rest| - 1] == flag && b == x + y + z + [flag] + rest
  {
    assert b == x + y + z + [flag] + rest;
  }

  lemma BytesExact(b: Bytes)
    ensures ReadSlice1D(b).Ok? ==> b == WriteBytes([], ReadSlice1D(b).val) + ReadSlice1D(b).rest
  {
    SliceExact(b);
    if ReadSlice1D(b).Ok? {
      assert WriteBytes([], ReadSlice1D(b).val) == SliceBytes(ReadSlice1D(b).val);
    }
  }

  lemma SigDigExact(b: Bytes)
    ensures SigDigDecode(b).Ok? ==>
              var o := SigDigDecode(b).val;
              |o.sig| < U64_BOUND && SigDigEncode([], Some(o)).Some?
              && b == SigDigEncode([], Some(o)).value + SigDigDecode(b).rest
  {
    hide WriteBytes, ReadSlice1D, ReadInt, SliceBytes, IntBytes;
    if SigDigDecode(b).Ok? {
      var o := SigDigDecode(b).val;
      IntExact(b);
      var b1 := ReadInt(b).rest;
      SliceExact(b1);
      var b2 := ReadSlice1D(b1).rest;
      BytesExact(b2);
      WriteBytesAppends(WriteSlice1D(WriteInt([], o.epoch), o.dig), o.sig);
      assert SigDigEncode([], Some(o)).value == IntBytes(o.epoch) + SliceBytes(o.dig) + WriteBytes([], o.sig);
    }
  }

  lemma CommitOpenExact(b: Bytes)
    ensures CommitOpenDecode(b).Ok? ==>
              b == CommitOpenEncode([], CommitOpenDecode(b).val) + CommitOpenDecode(b).rest
  {
    hide ReadSlice1D, SliceBytes;
    if CommitOpenDecode(b).Ok? {
      SliceExact(b);
      SliceExact(ReadSlice1D(b).rest);
    }
  }

  lemma MembExact(b: Bytes)
    ensures MembDecode(b).Ok? ==>
              var o := MembDecode(b).val;
              |o.labelProof| < U64_BOUND && |o.merkleProof| < U64_BOUND && b == MembEncode([], o) + MembDecode(b).rest
  {
    hide WriteBytes, ReadSlice1D, ReadInt, SliceBytes, IntBytes, CommitOpenDecode, CommitOpenEncode;
    if MembDecode(b).Ok? {
      var o := MembDecode(b).val;
      BytesExact(b);
      var b1 := ReadSlice1D(b).rest;
      IntExact(b1);
      var b2 := ReadInt(b1).rest;
      CommitOpenExact(b2);
      var b3 := CommitOpenDecode(b2).rest;
      BytesExact(b3);
      var b0 := WriteInt(WriteBytes([], o.labelProof), o.epochAdded);
      WriteBytesAppends(CommitOpenEncode(b0, o.pkOpen), o.merkleProof);
      CommitOpenAppends(b0, o.pkOpen);
      assert MembEncode([], o)
             == WriteBytes([], o.labelProof) + IntBytes(o.epochAdded) + CommitOpenEncode([], o.pkOpen)
                + WriteBytes([], o.merkleProof);
    }
  }

  lemma CommitOpenAppends(b: Bytes, o: CommitOpen)
    ensures CommitOpenEncode(b, o) == b + CommitOpenEncode([], o)
  {
    hide SliceBytes;
  }

  lemma NonMembExact(b: Bytes)
    ensures NonMembDecode(b).Ok? ==>
              var o := NonMembDecode(b).val;
              |o.labelProof| < U64_BOUND && |o.merkleProof| < U64_BOUND
              && b == NonMembEncode([], o) + NonMembDecode(b).rest
  {
    hide WriteBytes, ReadSlice1D;
    if NonMembDecode(b).Ok? {
      var o := NonMembDecode(b).val;
      BytesExact(b);
      BytesExact(ReadSlice1D(b).rest);
      WriteBytesAppends(WriteBytes([], o.labelProof), o.merkleProof);
    }
  }

  // ---- when the server can answer

  /** The answers of a batch can all be encoded if and only if no uid occurs twice in it: for the
      second request of a uid, the encoder follows a nil pointer. */
  lemma AnswersEncodable(c: Crypto, k: ServKeys, st: ServState, reqs: seq<Req>)
    requires |st.hist| + 1 < U64_BOUND
    ensures (forall i: nat | i < |reqs| :: ServerPutReplyEncode([], BatchResps(c, k, st, reqs)[i]).Some?)
            <==> Distinct(reqs)
  {
    hide Mapper1For, Mapper0Of, AfterBatch, MembEncode, NonMembEncode, SliceBytes, IntBytes, ToU64;
    if !Distinct(reqs) {
      var i: nat, j: nat :| i < j < |reqs| && reqs[i].uid == reqs[j].uid;
      assert reqs[..j][i] == reqs[i] && reqs[i] in reqs[..j];
      assert ServerPutReplyEncode([], BatchResps(c, k, st, reqs)[j]).None?;
    }
  }

  /** A new server that finds two puts of one uid in its queue answers the first and cannot answer
      the second. */
  method TwoPutsOfOneUid(c: Crypto, k: ServKeys, uid: U64, pk: Slice, pk': Slice)
    returns (reply: Option<Bytes>, reply': Option<Bytes>)
    requires LabelsInjective(c, k)
    ensures reply.Some? && reply'.None?
  {
    hide ServInv, LabelsInjective, ServInit, BatchResps, MembEncode, NonMembEncode, SliceBytes, IntBytes, ToU64;
    var server := new Server(c, k);
    InitInv(c, k);
    ghost var st := server.State();
    var reqs := [Req(uid, pk), Req(uid, pk')];
    var resps := server.Worker(reqs);
    TwoResps(c, k, st, reqs);
    reply := ServerPutReplyEncode([], resps[0]);
    reply' := ServerPutReplyEncode([], resps[1]);
  }

  lemma TwoResps(c: Crypto, k: ServKeys, st: ServState, reqs: seq<Req>)
    requires |st.hist| + 1 < U64_BOUND && |reqs| == 2 && reqs[0].uid == reqs[1].uid
    ensures var resps := BatchResps(c, k, st, reqs); |resps| == 2 && resps[0].dig.Some? && resps[1] == REJECTED
  {
    hide Mapper1For, Mapper0Of, AfterBatch;
    assert reqs[..1][0] == reqs[0] && reqs[0] in reqs[..1];
  }
}
