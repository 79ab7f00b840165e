/** Replies on the wire: the server's replies as values of the message structs of kt/serde.go, encoded
    by the generated code. In every honest run each of them reaches its client as it is. */
module KtWire {
  import opened Bytes
  import opened KtTypes
  import opened KtClient
  import opened KtServerProofs
  import opened Marshal
  import opened Serde
  import opened SerdeBuild
  import opened SerdeCases
  import opened KtPackage
  import KtPutReply
  import opened Generated

  // ---- replies as values

  predicate MembFits(o: Memb) {
    |o.labelProof| < U64_BOUND && |o.merkleProof| < U64_BOUND
  }

  predicate NonMembFits(o: NonMemb) {
    |o.labelProof| < U64_BOUND && |o.merkleProof| < U64_BOUND
  }

  predicate MembHideFits(o: MembHide) {
    |o.labelProof| < U64_BOUND && |o.merkleProof| < U64_BOUND
  }

  function SigDigVal(o: SigDig): Val
    requires |o.sig| < U64_BOUND
  {
    StructVal([IntVal(o.epoch), Slice1(o.dig), Slice1(o.sig)])
  }

  function CommitOpenVal(o: CommitOpen): Val {
    StructVal([Slice1(o.val), Slice1(o.rand)])
  }

  function MembVal(o: Memb): Val
    requires MembFits(o)
  {
    StructVal([Slice1(o.labelProof), IntVal(o.epochAdded), CommitOpenVal(o.pkOpen), Slice1(o.merkleProof)])
  }

  function NonMembVal(o: NonMemb): Val
    requires NonMembFits(o)
  {
    StructVal([Slice1(o.labelProof), Slice1(o.merkleProof)])
  }

  predicate RespFits(r: WQResp) {
    (r.dig.Some? ==> |r.dig.value.sig| < U64_BOUND) && MembFits(r.lat) && NonMembFits(r.bound)
  }

  /** ServerPutReply; the digest of a rejected put is a nil pointer. */
  function RespVal(r: WQResp): Val
    requires RespFits(r)
  {
    StructVal([if r.dig.Some? then SigDigVal(r.dig.value) else NilVal, MembVal(r.lat), NonMembVal(r.bound),
               BoolVal(r.err)])
  }

  function Msgs(hist: seq<MembHide>): (msgs: seq<MembHideMsg>)
    requires forall i: nat | i < |hist| :: MembHideFits(hist[i])
    ensures msgs == hist
  {
    if hist == [] then []
    else
      var n := |hist| - 1;
      assert MembHideFits(hist[n]);
      var last: MembHideMsg := hist[n];
      Msgs(hist[..n]) + [last]
  }

  predicate GetReplyFits(r: GetReply) {
    && |r.dig.sig| < U64_BOUND && (forall i: nat | i < |r.hist| :: MembHideFits(r.hist[i]))
    && MembFits(r.latest) && NonMembFits(r.bound)
  }

  /** ServerGetReply. */
  function GetReplyVal(r: GetReply): Val
    requires GetReplyFits(r)
  {
    StructVal([SigDigVal(r.dig), Handled(MembHides(Msgs(r.hist))), BoolVal(r.isReg), MembVal(r.latest),
               NonMembVal(r.bound)])
  }

  predicate SelfMonReplyFits(r: SelfMonReply) {
    |r.dig.sig| < U64_BOUND && NonMembFits(r.bound)
  }

  /** ServerSelfMonReply. */
  function SelfMonReplyVal(r: SelfMonReply): Val
    requires SelfMonReplyFits(r)
  {
    StructVal([SigDigVal(r.dig), NonMembVal(r.bound)])
  }

  // ---- they are values of the structs

  /** Field i of a message struct takes values of its own codec. */
  lemma KtTyped(name: string, vals: seq<Val>)
    requires name in KT && |vals| == |KT[name].fields|
    requires forall i: nat | i < |vals| ::
               KtTy(KT[name].fields[i].ty) && Typed(KT, vals[i], KtCodec(KT[name].fields[i].ty))
    ensures Typed(KT, StructVal(vals), StructCodec(name))
  {
    hide KT, GenFieldEnc, KtField, KtTy;
    KtSupported();
    forall i: nat | i < |vals|
      ensures GenFieldEnc(KT[name].fields[i]).Some?
      ensures GenFieldEnc(KT[name].fields[i]).value.codec == KtCodec(KT[name].fields[i].ty)
    {
      KtFields(name, i);
      KtFieldCodec(KT[name].fields[i]);
    }
  }

  lemma SigDigTyped(o: SigDig)
    requires |o.sig| < U64_BOUND
    ensures Typed(KT, SigDigVal(o), StructCodec("SigDig"))
  {
    assert KT["SigDig"] == SIG_DIG;
    KtTyped("SigDig", SigDigVal(o).fields);
  }

  lemma CommitOpenTyped(o: CommitOpen)
    ensures Typed(KT, CommitOpenVal(o), StructCodec("CommitOpen"))
  {
    assert KT["CommitOpen"] == COMMIT_OPEN;
    KtTyped("CommitOpen", CommitOpenVal(o).fields);
  }

  lemma MembTyped(o: Memb)
    requires MembFits(o)
    ensures Typed(KT, MembVal(o), StructCodec("Memb"))
  {
    hide CommitOpenVal, KT, KtTy, KtCodec;
    MembCodecs();
    CommitOpenTyped(o.pkOpen);
    KtTyped("Memb", MembVal(o).fields);
  }

  lemma NonMembTyped(o: NonMemb)
    requires NonMembFits(o)
    ensures Typed(KT, NonMembVal(o), StructCodec("NonMemb"))
  {
    assert KT["NonMemb"] == NON_MEMB;
    KtTyped("NonMemb", NonMembVal(o).fields);
  }

  lemma PutReplyCodecs()
    ensures "ServerPutReply" in KT && KT["ServerPutReply"] == PUT_REPLY
    ensures forall i: nat | i < 4 :: KtTy(PUT_REPLY.fields[i].ty)
    ensures KtCodec(PUT_REPLY.fields[0].ty) == StructCodec("SigDig")
    ensures KtCodec(PUT_REPLY.fields[1].ty) == StructCodec("Memb")
    ensures KtCodec(PUT_REPLY.fields[2].ty) == StructCodec("NonMemb")
    ensures KtCodec(PUT_REPLY.fields[3].ty) == BoolCodec
    ensures "SigDig" in KT
  {
  }

  lemma GetReplyCodecs()
    ensures "ServerGetReply" in KT && KT["ServerGetReply"] == GET_REPLY
    ensures forall i: nat | i < 5 :: KtTy(GET_REPLY.fields[i].ty)
    ensures KtCodec(GET_REPLY.fields[0].ty) == StructCodec("SigDig")
    ensures KtCodec(GET_REPLY.fields[1].ty) == MEMB_HIDE_CODEC
    ensures KtCodec(GET_REPLY.fields[2].ty) == BoolCodec
    ensures KtCodec(GET_REPLY.fields[3].ty) == StructCodec("Memb")
    ensures KtCodec(GET_REPLY.fields[4].ty) == StructCodec("NonMemb")
  {
  }

  lemma SelfMonReplyCodecs()
    ensures "ServerSelfMonReply" in KT && KT["ServerSelfMonReply"] == SELF_MON_REPLY
    ensures forall i: nat | i < 2 :: KtTy(SELF_MON_REPLY.fields[i].ty)
    ensures KtCodec(SELF_MON_REPLY.fields[0].ty) == StructCodec("SigDig")
    ensures KtCodec(SELF_MON_REPLY.fields[1].ty) == StructCodec("NonMemb")
  {
  }

  lemma MembCodecs()
    ensures "Memb" in KT && KT["Memb"] == MEMB
    ensures forall i: nat | i < 4 :: KtTy(MEMB.fields[i].ty)
    ensures KtCodec(MEMB.fields[0].ty) == KtCodec(MEMB.fields[3].ty) == SliceCodec(1)
    ensures KtCodec(MEMB.fields[1].ty) == IntCodec
    ensures KtCodec(MEMB.fields[2].ty) == StructCodec("CommitOpen")
  {
  }

  lemma RespTyped(r: WQResp)
    requires RespFits(r)
    ensures Typed(KT, RespVal(r), StructCodec("ServerPutReply"))
  {
    hide SigDigVal, MembVal, NonMembVal, KT, KtTy, KtCodec;
    PutReplyCodecs();
    if r.dig.Some? {
      SigDigTyped(r.dig.value);
    }
    NilTyped("SigDig");
    MembTyped(r.lat);
    NonMembTyped(r.bound);
    KtTyped("ServerPutReply", RespVal(r).fields);
  }

  lemma NilTyped(name: string)
    requires name in KT
    ensures Typed(KT, NilVal, StructCodec(name))
  {
    hide KT, GenFieldEnc;
    KtSupported();
  }

  lemma GetReplyTyped(r: GetReply)
    requires GetReplyFits(r)
    ensures Typed(KT, GetReplyVal(r), StructCodec("ServerGetReply"))
  {
    hide SigDigVal, MembVal, NonMembVal, KT, KtTy, KtCodec;
    GetReplyCodecs();
    SigDigTyped(r.dig);
    MembTyped(r.latest);
    NonMembTyped(r.bound);
    KtTyped("ServerGetReply", GetReplyVal(r).fields);
  }

  lemma SelfMonReplyTyped(r: SelfMonReply)
    requires SelfMonReplyFits(r)
    ensures Typed(KT, SelfMonReplyVal(r), StructCodec("ServerSelfMonReply"))
  {
    hide SigDigVal, NonMembVal, KT, KtTy, KtCodec;
    SelfMonReplyCodecs();
    SigDigTyped(r.dig);
    NonMembTyped(r.bound);
    KtTyped("ServerSelfMonReply", SelfMonReplyVal(r).fields);
  }

  // ---- they have encodings, and arrive

  const DEPTH: nat := 3

  /** The value is encoded, and decoded from its encoding with anything behind it. */
  ghost predicate Arrives(h: Handlers, name: string, v: Val) {
    && PackageSupported(KT) && Encode(KT, h, name, v, []).Some?
    && forall tail ::
         RunPackage(KT, KT_SUPPLIED, h, name, Encode(KT, h, name, v, []).value + tail, DEPTH) == Ran(Ok(v, tail))
  }

  lemma ValArrives(h: Handlers, name: string, v: Val)
    requires KtHandlers(h) && name in KT && Typed(KT, v, StructCodec(name)) && Height(v) <= DEPTH + 1
    ensures Arrives(h, name, v) <==> NoNil(v)
    ensures Encode(KT, h, name, v, []).Some? <==> NoNil(v)
  {
    hide KT, Typed, NoNil, Encode, RunPackage, KtHandlers, Height;
    KtRoundTrip(h, name, v, [], DEPTH);
    forall tail
      ensures PackageSupported(KT) && (Encode(KT, h, name, v, []).Some? <==> NoNil(v))
      ensures NoNil(v) ==>
                RunPackage(KT, KT_SUPPLIED, h, name, Encode(KT, h, name, v, []).value + tail, DEPTH) == Ran(Ok(v, tail))
    {
      KtRoundTrip(h, name, v, tail, DEPTH);
    }
  }

  lemma LeafStruct(v: Val)
    requires v.StructVal? && forall i: nat | i < |v.fields| :: !v.fields[i].StructVal? && !v.fields[i].NilVal?
    ensures Height(v) <= 1 && NoNil(v)
  {
    MaxHeightBound(v.fields, 0);
  }

  lemma PartsFacts(m: Memb, n: NonMemb, d: SigDig)
    requires MembFits(m) && NonMembFits(n) && |d.sig| < U64_BOUND
    ensures Height(MembVal(m)) <= 2 && NoNil(MembVal(m))
    ensures Height(NonMembVal(n)) <= 1 && NoNil(NonMembVal(n))
    ensures Height(SigDigVal(d)) <= 1 && NoNil(SigDigVal(d))
  {
    LeafStruct(CommitOpenVal(m.pkOpen));
    MaxHeightBound(MembVal(m).fields, 1);
    LeafStruct(NonMembVal(n));
    LeafStruct(SigDigVal(d));
  }

  /** The reply to a put has an encoding by the generated code, and reaches its client as it is, if and
      only if it has a digest. */
  lemma RespArrivesIff(h: Handlers, r: WQResp)
    requires KtHandlers(h) && RespFits(r)
    ensures Encode(KT, h, "ServerPutReply", RespVal(r), []).Some? <==> r.dig.Some?
    ensures Arrives(h, "ServerPutReply", RespVal(r)) <==> r.dig.Some?
  {
    hide KT, Typed, Encode, Arrives, KtHandlers, SigDigVal, MembVal, NonMembVal;
    var d := if r.dig.Some? then r.dig.value else SigDig(0, [], []);
    PartsFacts(r.lat, r.bound, d);
    RespTyped(r);
    MaxHeightBound(RespVal(r).fields, 2);
    ReplyNames();
    ValArrives(h, "ServerPutReply", RespVal(r));
  }

  lemma ReplyNames()
    ensures "ServerPutReply" in KT && "ServerGetReply" in KT && "ServerSelfMonReply" in KT
  {
  }

  lemma GetReplyArrives(h: Handlers, r: GetReply)
    requires KtHandlers(h) && GetReplyFits(r)
    ensures Arrives(h, "ServerGetReply", GetReplyVal(r))
  {
    hide KT, Typed, Encode, Arrives, KtHandlers, SigDigVal, MembVal, NonMembVal;
    PartsFacts(r.latest, r.bound, r.dig);
    GetReplyTyped(r);
    MaxHeightBound(GetReplyVal(r).fields, 2);
    ReplyNames();
    ValArrives(h, "ServerGetReply", GetReplyVal(r));
  }

  lemma SelfMonReplyArrives(h: Handlers, r: SelfMonReply)
    requires KtHandlers(h) && SelfMonReplyFits(r)
    ensures Arrives(h, "ServerSelfMonReply", SelfMonReplyVal(r))
  {
    hide KT, Typed, Encode, Arrives, KtHandlers, SigDigVal, NonMembVal;
    PartsFacts(NO_MEMB, r.bound, r.dig);
    SelfMonReplyTyped(r);
    MaxHeightBound(SelfMonReplyVal(r).fields, 2);
    ReplyNames();
    ValArrives(h, "ServerSelfMonReply", SelfMonReplyVal(r));
  }

  /** Nothing of a reply is lost in the message structs. */
  lemma ReplyValsInjective(r: GetReply, r': GetReply, s: SelfMonReply, s': SelfMonReply, w: WQResp, w': WQResp)
    requires GetReplyFits(r) && GetReplyFits(r') && SelfMonReplyFits(s) && SelfMonReplyFits(s')
    requires RespFits(w) && RespFits(w')
    ensures GetReplyVal(r) == GetReplyVal(r') ==> r == r'
    ensures SelfMonReplyVal(s) == SelfMonReplyVal(s') ==> s == s'
    ensures RespVal(w) == RespVal(w') ==> w == w'
  {
    hide Msgs;
    GetValParts(r, r');
    RespValParts(w, w');
    if SelfMonReplyVal(s) == SelfMonReplyVal(s') {
      var x, y := SelfMonReplyVal(s).fields, SelfMonReplyVal(s').fields;
      assert x[0] == y[0] && x[1] == y[1];
      SigDigValInjective(s.dig, s'.dig);
      NonMembValInjective(s.bound, s'.bound);
    }
  }

  lemma SigDigValInjective(o: SigDig, o': SigDig)
    requires |o.sig| < U64_BOUND && |o'.sig| < U64_BOUND && SigDigVal(o) == SigDigVal(o')
    ensures o == o'
  {
    var x, y := SigDigVal(o).fields, SigDigVal(o').fields;
    assert x[0] == y[0] && x[1] == y[1] && x[2] == y[2];
  }

  lemma MembValInjective(o: Memb, o': Memb)
    requires MembFits(o) && MembFits(o') && MembVal(o) == MembVal(o')
    ensures o == o'
  {
    var x, y := MembVal(o).fields, MembVal(o').fields;
    assert x[0] == y[0] && x[1] == y[1] && x[2] == y[2] && x[3] == y[3];
    var p, q := CommitOpenVal(o.pkOpen).fields, CommitOpenVal(o'.pkOpen).fields;
    assert p[0] == q[0] && p[1] == q[1];
  }

  lemma NonMembValInjective(o: NonMemb, o': NonMemb)
    requires NonMembFits(o) && NonMembFits(o') && NonMembVal(o) == NonMembVal(o')
    ensures o == o'
  {
    var x, y := NonMembVal(o).fields, NonMembVal(o').fields;
    assert x[0] == y[0] && x[1] == y[1];
  }

  lemma GetValParts(r: GetReply, r': GetReply)
    requires GetReplyFits(r) && GetReplyFits(r')
    ensures GetReplyVal(r) == GetReplyVal(r') ==> r == r'
  {
    hide SigDigVal, MembVal, NonMembVal;
    if GetReplyVal(r) == GetReplyVal(r') {
      var x, y := GetReplyVal(r).fields, GetReplyVal(r').fields;
      assert x[0] == y[0] && x[1] == y[1] && x[2] == y[2] && x[3] == y[3] && x[4] == y[4];
      SigDigValInjective(r.dig, r'.dig);
      MembValInjective(r.latest, r'.latest);
      NonMembValInjective(r.bound, r'.bound);
    }
  }

  lemma RespValParts(r: WQResp, r': WQResp)
    requires RespFits(r) && RespFits(r')
    ensures RespVal(r) == RespVal(r') ==> r == r'
  {
    hide MembVal, NonMembVal;
    if RespVal(r) == RespVal(r') {
      var x, y := RespVal(r).fields, RespVal(r').fields;
      assert x[0] == y[0] && x[1] == y[1] && x[2] == y[2] && x[3] == y[3];
      if r.dig.Some? && r'.dig.Some? {
        SigDigValInjective(r.dig.value, r'.dig.value);
      }
      MembValInjective(r.lat, r'.lat);
      NonMembValInjective(r.bound, r'.bound);
    }
  }

  // ---- the encoder of put replies is the generated one

  /** What the generated statement for one field of a message writes. */
  function EncField(h: Handlers, ty: Ty, v: Val, b: Bytes): Option<Bytes>
    requires KtTy(ty)
  {
    if ty.PointerTy? then Encode(KT, h, ty.struct.name, v, b) else WriteFlat(h, b, KtCodec(ty), v)
  }

  function EncFields(h: Handlers, fields: seq<Field>, vals: seq<Val>, b: Bytes): Option<Bytes>
    requires |fields| == |vals| && forall f | f in fields :: KtTy(f.ty)
  {
    if fields == [] then Some(b)
    else
      match EncField(h, fields[0].ty, vals[0], b)
      case None => None
      case Some(b') => EncFields(h, fields[1..], vals[1..], b')
  }

  lemma KtFieldTys(name: string)
    requires name in KT
    ensures forall f | f in KT[name].fields :: KtTy(f.ty)
  {
    hide KT, KtTy;
    forall f | f in KT[name].fields
      ensures KtTy(f.ty)
    {
      var i: nat :| i < |KT[name].fields| && KT[name].fields[i] == f;
      KtFields(name, i);
    }
  }

  lemma KtStmt(h: Handlers, name: string, vals: seq<Val>, b: Bytes, i: nat)
    requires name in KT && i < |KT[name].fields| == |vals|
    ensures Supported(KT[name]) && KtTy(KT[name].fields[i].ty)
    ensures RunEncStmt(KT, h, name, StructVal(vals), b, GenEncode(KT[name])[i])
            == EncField(h, KT[name].fields[i].ty, vals[i], b)
  {
    hide KT, GenFieldEnc, Encode, WriteFlat, KT_NAMES;
    KtSupported();
    KtKeys();
    KtStructs(name);
    var f := KT[name].fields[i];
    KtFields(name, i);
    KtFieldCodec(f);
    SerdeBuild.StmtsOf(KT[name], i);
    GoDistinct(KT[name]);
    DistinctIndex(KT[name], i);
    KtNotConst(f);
  }

  lemma GoDistinct(st: Struct)
    requires KtStruct(st)
    ensures NamesDistinct(st)
  {
    hide KtTy;
    forall i: nat, j: nat | i < j < |st.fields|
      ensures st.fields[i].name != st.fields[j].name
    {
      assert st.fields[i] in st.fields && KtField(st.fields[i]);
    }
  }

  /** The generated encoder of a message writes its fields in order. */
  lemma {:induction false} KtRunFrom(h: Handlers, name: string, vals: seq<Val>, b0: Bytes, b: Bytes, n: nat)
    requires name in KT && n <= |KT[name].fields| == |vals| && Supported(KT[name])
    requires RunEnc(KT, h, name, StructVal(vals), b0, n) == Some(b)
    ensures forall f | f in KT[name].fields[n..] :: KtTy(f.ty)
    ensures RunEnc(KT, h, name, StructVal(vals), b0, |vals|) == EncFields(h, KT[name].fields[n..], vals[n..], b)
    decreases |vals| - n
  {
    hide KT, EncField, RunEncStmt, GenEncode, KtTy, Supported;
    KtFieldTys(name);
    var fields := KT[name].fields;
    if n < |vals| {
      KtStmt(h, name, vals, b, n);
      assert fields[n..][1..] == fields[n + 1..] && vals[n..][1..] == vals[n + 1..];
      match EncField(h, fields[n].ty, vals[n], b)
      case None => StuckEnc(h, name, vals, b0, n + 1, |vals|);
      case Some(b') => KtRunFrom(h, name, vals, b0, b', n + 1);
    }
  }

  lemma {:induction false} StuckEnc(h: Handlers, name: string, vals: seq<Val>, b0: Bytes, n: nat, m: nat)
    requires name in KT && n <= m <= |KT[name].fields| == |vals| && Supported(KT[name])
    requires RunEnc(KT, h, name, StructVal(vals), b0, n).None?
    ensures RunEnc(KT, h, name, StructVal(vals), b0, m).None?
  {
    hide KT, RunEncStmt, GenEncode, Supported;
    if n < m {
      StuckEnc(h, name, vals, b0, n, m - 1);
    }
  }

  lemma KtEncodeIs(h: Handlers, name: string, vals: seq<Val>, b: Bytes)
    requires name in KT && |vals| == |KT[name].fields|
    ensures forall f | f in KT[name].fields :: KtTy(f.ty)
    ensures Encode(KT, h, name, StructVal(vals), b) == EncFields(h, KT[name].fields, vals, b)
  {
    hide KT, EncFields, KtTy;
    KtSupported();
    KtFieldTys(name);
    KtRunFrom(h, name, vals, b, b, 0);
    assert KT[name].fields[0..] == KT[name].fields && vals[0..] == vals;
  }

  /** The fields from number n on. */
  lemma EncFrom(h: Handlers, fields: seq<Field>, vals: seq<Val>, b: Bytes, n: nat)
    requires n <= |fields| == |vals| && forall f | f in fields :: KtTy(f.ty)
    ensures EncFields(h, fields[n..], vals[n..], b)
            == if n == |fields| then Some(b)
               else match EncField(h, fields[n].ty, vals[n], b)
                    case None => None
                    case Some(b') => EncFields(h, fields[n + 1..], vals[n + 1..], b')
  {
    hide EncField, KtTy;
    if n < |fields| {
      assert fields[n..][1..] == fields[n + 1..] && vals[n..][1..] == vals[n + 1..];
    }
  }

  lemma BytesAreSlices(b: Bytes, s: Slice)
    ensures KtPutReply.WriteBytes(b, s) == WriteSlice1D(b, s)
  {
    hide IntBytes;
  }

  lemma LastWritten(b0: Bytes, vals: seq<Val>)
    requires vals != []
    ensures WriteVals(b0, vals) == WriteVal(WriteVals(b0, vals[..|vals| - 1]), vals[|vals| - 1])
  {
    hide WriteVal;
  }

  lemma WriteThree(b0: Bytes, x: Val, y: Val, z: Val)
    ensures WriteVals(b0, [x, y, z]) == WriteVal(WriteVal(WriteVal(b0, x), y), z)
  {
    hide WriteVal, WriteVals;
    WriteTwo(b0, x, y);
    assert [x, y, z][..2] == [x, y];
    LastWritten(b0, [x, y, z]);
  }

  lemma SigDigSimple()
    ensures Has(KT, SIG_DIG) && Simple(SIG_DIG) && SIG_DIG.name == "SigDig"
  {
  }

  lemma SigDigGenerated(h: Handlers, o: SigDig, b: Bytes)
    requires |o.sig| < U64_BOUND
    ensures Encode(KT, h, "SigDig", SigDigVal(o), b) == KtPutReply.SigDigEncode(b, Some(o))
  {
    hide Encode, WriteVals, KtPutReply.WriteBytes, SliceBytes, IntBytes, KT, Simple, Has;
    SigDigSimple();
    SimpleEncode(KT, h, SIG_DIG, SigDigVal(o).fields, b);
    WriteThree(b, IntVal(o.epoch), Slice1(o.dig), Slice1(o.sig));
    BytesAreSlices(WriteSlice1D(WriteInt(b, o.epoch), o.dig), o.sig);
  }

  lemma NonMembGenerated(h: Handlers, o: NonMemb, b: Bytes)
    requires NonMembFits(o)
    ensures Encode(KT, h, "NonMemb", NonMembVal(o), b) == Some(KtPutReply.NonMembEncode(b, o))
  {
    hide Encode, WriteVals, KtPutReply.WriteBytes, SliceBytes, IntBytes;
    assert Has(KT, NON_MEMB);
    hide KT;
    SimpleEncode(KT, h, NON_MEMB, NonMembVal(o).fields, b);
    WriteTwo(b, Slice1(o.labelProof), Slice1(o.merkleProof));
    BytesAreSlices(b, o.labelProof);
    BytesAreSlices(WriteSlice1D(b, o.labelProof), o.merkleProof);
  }

  lemma EncInt(h: Handlers, n: U64, b: Bytes)
    ensures KtTy(Uint64Ty) && EncField(h, Uint64Ty, IntVal(n), b) == Some(WriteInt(b, n))
  {
    hide KT_NAMES;
  }

  lemma EncBool(h: Handlers, x: bool, b: Bytes)
    ensures KtTy(BoolTy) && EncField(h, BoolTy, BoolVal(x), b) == Some(WriteBool(b, x))
  {
    hide KT_NAMES;
  }

  lemma EncBytes(h: Handlers, x: Slice, b: Bytes)
    ensures KtTy(BYTES_TY) && EncField(h, BYTES_TY, Slice1(x), b) == Some(WriteSlice1D(b, x))
  {
    hide KT_NAMES, SliceBytes;
  }

  lemma EncStruct(h: Handlers, name: string, v: Val, b: Bytes)
    requires name in KT_NAMES
    ensures KtTy(Local(name)) && EncField(h, Local(name), v, b) == Encode(KT, h, name, v, b)
  {
    hide KT_NAMES, KT, Encode;
  }

  lemma CommitOpenEncoded(h: Handlers, o: CommitOpen, b: Bytes)
    ensures Encode(KT, h, "CommitOpen", CommitOpenVal(o), b) == Some(CommitOpenEncode(b, o))
  {
    hide Encode;
    assert Has(KT, COMMIT_OPEN);
    hide KT;
    CommitOpenGenerated(KT, h, o, b);
  }

  lemma MembFields()
    ensures "Memb" in KT && KT["Memb"] == MEMB && "CommitOpen" in KT_NAMES
    ensures forall f | f in MEMB.fields :: KtTy(f.ty)
    ensures MEMB.fields[0].ty == MEMB.fields[3].ty == BYTES_TY && MEMB.fields[1].ty == Uint64Ty
    ensures |MEMB.fields| == 4 && MEMB.fields[2].ty == Local("CommitOpen")
  {
    KtFieldTys("Memb");
  }

  lemma MembGenerated(h: Handlers, o: Memb, b: Bytes)
    requires MembFits(o)
    ensures Encode(KT, h, "Memb", MembVal(o), b) == Some(KtPutReply.MembEncode(b, o))
  {
    hide Encode, EncFields, KT_NAMES, CommitOpenVal, CommitOpenEncode, KT, KtTy, EncField, MEMB, SliceBytes, IntBytes;
    hide KtPutReply.WriteBytes;
    MembFields();
    var fields, vals := MEMB.fields, MembVal(o).fields;
    KtEncodeIs(h, "Memb", vals, b);
    assert fields[0..] == fields && vals[0..] == vals;
    var b1 := WriteSlice1D(b, o.labelProof);
    var b2 := WriteInt(b1, o.epochAdded);
    var b3 := CommitOpenEncode(b2, o.pkOpen);
    var b4 := WriteSlice1D(b3, o.merkleProof);
    BytesAreSlices(b, o.labelProof);
    BytesAreSlices(b3, o.merkleProof);
    assert KtPutReply.MembEncode(b, o) == b4;
    EncBytes(h, o.labelProof, b);
    EncInt(h, o.epochAdded, b1);
    EncStruct(h, "CommitOpen", CommitOpenVal(o.pkOpen), b2);
    CommitOpenEncoded(h, o.pkOpen, b2);
    EncBytes(h, o.merkleProof, b3);
    EncFrom(h, fields, vals, b, 0);
    EncFrom(h, fields, vals, b1, 1);
    EncFrom(h, fields, vals, b2, 2);
    EncFrom(h, fields, vals, b3, 3);
    EncFrom(h, fields, vals, b4, 4);
  }

  lemma NilPanics(h: Handlers, b: Bytes)
    ensures Encode(KT, h, "SigDig", NilVal, b).None?
  {
    hide KT, GenFieldEnc, Usable, Encode, Typed, ReadsNoNil, Builds, Buildable;
    KtUsable();
    PutReplyCodecs();
    NilTyped("SigDig");
    EncodeIff(KT, h, "SigDig", NilVal, b);
    KtReadsAll(NilVal, StructCodec("SigDig"));
  }

  lemma KtUsable()
    ensures Usable(KT)
  {
    hide KT, GenFieldEnc, Usable, Builds, Buildable, SerdeBuild.GoNames;
    KtBuilds();
    forall n | n in KT
      ensures SerdeBuild.GoNames(KT[n])
    {
      KtNames(n);
    }
    BuildsIff(KT, KT_SUPPLIED);
    BuildableUsable(KT, KT_SUPPLIED);
  }

  lemma PutReplyFields()
    ensures "ServerPutReply" in KT && KT["ServerPutReply"] == PUT_REPLY
    ensures "SigDig" in KT_NAMES && "Memb" in KT_NAMES && "NonMemb" in KT_NAMES
    ensures forall f | f in PUT_REPLY.fields :: KtTy(f.ty)
    ensures |PUT_REPLY.fields| == 4
    ensures PUT_REPLY.fields[0].ty == Local("SigDig") && PUT_REPLY.fields[1].ty == Local("Memb")
    ensures PUT_REPLY.fields[2].ty == Local("NonMemb") && PUT_REPLY.fields[3].ty == BoolTy
  {
    KtFieldTys("ServerPutReply");
  }

  /** ServerPutReplyEncode is what the compiler generates, the nil pointer included. */
  lemma PutReplyGenerated(h: Handlers, r: WQResp, b: Bytes)
    requires RespFits(r)
    ensures Encode(KT, h, "ServerPutReply", RespVal(r), b) == KtPutReply.ServerPutReplyEncode(b, r)
  {
    hide Encode, EncFields, SigDigVal, MembVal, NonMembVal, KT, KtTy, KtPutReply.MembEncode, KtPutReply.NonMembEncode;
    hide KtPutReply.SigDigEncode, Typed, KT_NAMES, PUT_REPLY, EncField;
    PutReplyFields();
    var fields, vals := PUT_REPLY.fields, RespVal(r).fields;
    KtEncodeIs(h, "ServerPutReply", vals, b);
    assert fields[0..] == fields && vals[0..] == vals;
    EncFrom(h, fields, vals, b, 0);
    EncStruct(h, "SigDig", vals[0], b);
    DigGenerated(h, r.dig, b);
    if r.dig.Some? {
      var b1 := KtPutReply.SigDigEncode(b, r.dig).value;
      var b2 := KtPutReply.MembEncode(b1, r.lat);
      var b3 := KtPutReply.NonMembEncode(b2, r.bound);
      EncStruct(h, "Memb", vals[1], b1);
      MembGenerated(h, r.lat, b1);
      EncStruct(h, "NonMemb", vals[2], b2);
      NonMembGenerated(h, r.bound, b2);
      EncBool(h, r.err, b3);
      EncFrom(h, fields, vals, b1, 1);
      EncFrom(h, fields, vals, b2, 2);
      EncFrom(h, fields, vals, b3, 3);
      EncFrom(h, fields, vals, WriteBool(b3, r.err), 4);
    }
  }

  lemma DigGenerated(h: Handlers, dig: Option<SigDig>, b: Bytes)
    requires dig.Some? ==> |dig.value.sig| < U64_BOUND
    ensures Encode(KT, h, "SigDig", if dig.Some? then SigDigVal(dig.value) else NilVal, b)
            == KtPutReply.SigDigEncode(b, dig)
    ensures dig.Some? <==> KtPutReply.SigDigEncode(b, dig).Some?
  {
    hide Encode, KT;
    if dig.Some? {
      SigDigGenerated(h, dig.value, b);
    } else {
      NilPanics(h, b);
    }
  }
}
