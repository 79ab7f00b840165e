/** All messages of kt/serde.go: with the handlers of kt/serde_misc.go, the generated code builds, and
    every value of every message round-trips. */
module KtPackage {
  import opened Bytes
  import opened KtTypes
  import opened Marshal
  import opened Serde
  import opened SerdeBuild
  import opened SerdeCases
  import opened Generated

  const SIG_DIG: Struct :=
    Struct("SigDig", [Plainly("Epoch", Uint64Ty), Plainly("Dig", BYTES_TY), Plainly("Sig", BYTES_TY)])
  const MEMB: Struct :=
    Struct("Memb", [Plainly("LabelProof", BYTES_TY), Plainly("EpochAdded", Uint64Ty),
                    Plainly("PkOpen", Local("CommitOpen")), Plainly("MerkleProof", BYTES_TY)])
  const MEMB_HIDE: Struct :=
    Struct("MembHide", [Plainly("LabelProof", BYTES_TY), Plainly("MapVal", BYTES_TY), Plainly("MerkleProof", BYTES_TY)])
  const NON_MEMB: Struct := Struct("NonMemb", [Plainly("LabelProof", BYTES_TY), Plainly("MerkleProof", BYTES_TY)])
  const PUT_ARG: Struct := Struct("ServerPutArg", [Plainly("Uid", Uint64Ty), Plainly("Pk", BYTES_TY)])
  const PUT_REPLY: Struct :=
    Struct("ServerPutReply", [Plainly("Dig", Local("SigDig")), Plainly("Latest", Local("Memb")),
                              Plainly("Bound", Local("NonMemb")), Plainly("Err", BoolTy)])
  const GET_ARG: Struct := Struct("ServerGetArg", [Plainly("Uid", Uint64Ty)])
  const GET_REPLY: Struct :=
    Struct("ServerGetReply", [Plainly("Dig", Local("SigDig")), Plainly("Hist", SliceTy(Local("MembHide"))),
                              Plainly("IsReg", BoolTy), Plainly("Latest", Local("Memb")),
                              Plainly("Bound", Local("NonMemb"))])
  const SELF_MON_ARG: Struct := Struct("ServerSelfMonArg", [Plainly("Uid", Uint64Ty)])
  const SELF_MON_REPLY: Struct :=
    Struct("ServerSelfMonReply", [Plainly("Dig", Local("SigDig")), Plainly("Bound", Local("NonMemb"))])
  const AUDIT_ARG: Struct := Struct("ServerAuditArg", [Plainly("Epoch", Uint64Ty)])
  const UPDATE_PROOF: Struct := Struct("UpdateProof", [Plainly("Updates", STRING_TO_BYTES), Plainly("Sig", BYTES_TY)])
  const AUDIT_REPLY: Struct := Struct("ServerAuditReply", [Plainly("P", Local("UpdateProof")), Plainly("Err", BoolTy)])
  const ADTR_UPDATE_ARG: Struct := Struct("AdtrUpdateArg", [Plainly("P", Local("UpdateProof"))])
  const ADTR_UPDATE_REPLY: Struct := Struct("AdtrUpdateReply", [Plainly("Err", BoolTy)])
  const ADTR_GET_ARG: Struct := Struct("AdtrGetArg", [Plainly("Epoch", Uint64Ty)])
  const ADTR_EPOCH_INFO: Struct :=
    Struct("AdtrEpochInfo", [Plainly("Dig", BYTES_TY), Plainly("ServSig", BYTES_TY), Plainly("AdtrSig", BYTES_TY)])
  const ADTR_GET_REPLY: Struct := Struct("AdtrGetReply", [Plainly("X", Local("AdtrEpochInfo")), Plainly("Err", BoolTy)])

  const KT: Package := map[
    "PreSigDig" := PRE_SIG_DIG, "SigDig" := SIG_DIG, "MapLabelPre" := MAP_LABEL_PRE, "CommitOpen" := COMMIT_OPEN,
    "MapValPre" := MAP_VAL_PRE, "Memb" := MEMB, "MembHide" := MEMB_HIDE, "NonMemb" := NON_MEMB,
    "ServerPutArg" := PUT_ARG, "ServerPutReply" := PUT_REPLY, "ServerGetArg" := GET_ARG, "ServerGetReply" := GET_REPLY,
    "ServerSelfMonArg" := SELF_MON_ARG, "ServerSelfMonReply" := SELF_MON_REPLY, "ServerAuditArg" := AUDIT_ARG,
    "UpdateProof" := UPDATE_PROOF, "ServerAuditReply" := AUDIT_REPLY, "AdtrUpdateArg" := ADTR_UPDATE_ARG,
    "AdtrUpdateReply" := ADTR_UPDATE_REPLY, "AdtrGetArg" := ADTR_GET_ARG, "AdtrEpochInfo" := ADTR_EPOCH_INFO,
    "AdtrGetReply" := ADTR_GET_REPLY]

  const KT_NAMES: set<string> := {
    "PreSigDig", "SigDig", "MapLabelPre", "CommitOpen", "MapValPre", "Memb", "MembHide", "NonMemb", "ServerPutArg",
    "ServerPutReply", "ServerGetArg", "ServerGetReply", "ServerSelfMonArg", "ServerSelfMonReply", "ServerAuditArg",
    "UpdateProof", "ServerAuditReply", "AdtrUpdateArg", "AdtrUpdateReply", "AdtrGetArg", "AdtrEpochInfo",
    "AdtrGetReply"}

  lemma KtKeys()
    ensures KT.Keys == KT_NAMES
  {
  }

  const KT_SUPPLIED: set<string> := {"MembHideSlice1D", "MapstringSlbyte"}

  // ---- what the fields are

  /** The types that occur. */
  predicate KtTy(ty: Ty) {
    SimpleTy(ty) || ty == SliceTy(Local("MembHide")) || ty == STRING_TO_BYTES || LocalKt(ty)
  }

  predicate LocalKt(ty: Ty) {
    ty.PointerTy? && ty == Local(ty.struct.name) && ty.struct.name in KT_NAMES
  }

  predicate KtField(f: Field) {
    f.cst.None? && f.name != "_" && KtTy(f.ty)
  }

  function KtCodec(ty: Ty): Codec
    requires KtTy(ty)
  {
    match ty
    case Uint64Ty => IntCodec
    case BoolTy => BoolCodec
    case PointerTy(st) => StructCodec(st.name)
    case SliceTy(elem) => if elem.ByteTy? then SliceCodec(1) else MEMB_HIDE_CODEC
    case _ => MAP_CODEC
  }

  predicate KtStruct(st: Struct) {
    GoNames(st) && st.typeParams == [] && forall f | f in st.fields :: KtField(f)
  }

  lemma DigStructs()
    ensures KtStruct(PRE_SIG_DIG) && KtStruct(SIG_DIG)
  {
  }

  lemma MapStructs()
    ensures KtStruct(MAP_LABEL_PRE) && KtStruct(COMMIT_OPEN) && KtStruct(MAP_VAL_PRE)
  {
  }

  lemma MembStruct()
    ensures KtStruct(MEMB)
  {
  }

  lemma MembStructs()
    ensures KtStruct(MEMB_HIDE) && KtStruct(NON_MEMB)
  {
  }

  lemma PutStructs()
    ensures KtStruct(PUT_ARG) && KtStruct(PUT_REPLY)
  {
  }

  lemma GetStructs()
    ensures KtStruct(GET_ARG) && KtStruct(GET_REPLY)
  {
  }

  lemma SelfMonStructs()
    ensures KtStruct(SELF_MON_ARG) && KtStruct(SELF_MON_REPLY)
  {
  }

  lemma AuditStructs()
    ensures KtStruct(AUDIT_ARG) && KtStruct(UPDATE_PROOF) && KtStruct(AUDIT_REPLY)
  {
  }

  lemma AdtrUpdateStructs()
    ensures KtStruct(ADTR_UPDATE_ARG) && KtStruct(ADTR_UPDATE_REPLY)
  {
  }

  lemma AdtrGetStructs()
    ensures KtStruct(ADTR_GET_ARG) && KtStruct(ADTR_EPOCH_INFO) && KtStruct(ADTR_GET_REPLY)
  {
  }

  lemma KtStructs(n: string)
    requires n in KT
    ensures KtStruct(KT[n])
  {
    hide KtStruct;
    DigStructs();
    MapStructs();
    MembStruct();
    MembStructs();
    PutStructs();
    GetStructs();
    SelfMonStructs();
    AuditStructs();
    AdtrUpdateStructs();
    AdtrGetStructs();
  }

  lemma KtFields(n: string, i: nat)
    requires n in KT && i < |KT[n].fields|
    ensures KtField(KT[n].fields[i])
  {
    hide KtField, KT;
    KtStructs(n);
  }

  lemma KtNames(n: string)
    requires n in KT
    ensures GoNames(KT[n]) && KT[n].typeParams == []
  {
    hide KT;
    KtStructs(n);
  }

  lemma KtFieldCodec(f: Field)
    requires KtField(f)
    ensures GenFieldEnc(f) == Some(EncStmt(KtCodec(f.ty), FieldArg(f.name)))
  {
    StringMapNames();
    assert GenSliceEnc(ByteTy, 1) == Some(SliceCodec(1));
    assert GenSliceEnc(Local("MembHide"), 1) == Some(StructSliceCodec("MembHide", 1));
  }

  lemma KtSupported()
    ensures PackageSupported(KT)
    ensures forall f | InPackage(KT, f) :: KtField(f)
  {
    hide GenFieldEnc, KtField, KT;
    forall n, i: nat | n in KT && i < |KT[n].fields|
      ensures KtField(KT[n].fields[i]) && GenFieldEnc(KT[n].fields[i]).Some?
    {
      KtFields(n, i);
      KtFieldCodec(KT[n].fields[i]);
    }
    forall f | InPackage(KT, f)
      ensures KtField(f)
    {
      var n :| n in KT && f in KT[n].fields;
      var i: nat :| i < |KT[n].fields| && KT[n].fields[i] == f;
    }
  }

  // ---- it builds

  lemma KtPairNames()
    ensures PairName(MEMB_HIDE_CODEC) == "MembHideSlice1D" && PairName(MAP_CODEC) == "MapstringSlbyte"
    ensures "MembHideSlice1D" !in KT && "MapstringSlbyte" !in KT
  {
    assert Decimal(1) == "1";
    assert "MembHide" + "Slice" + "1" + "D" == "MembHideSlice1D";
  }

  lemma KtFieldOk(f: Field)
    requires KtField(f) && GenFieldEnc(f).Some?
    ensures FieldOk(KT, KT_SUPPLIED, f)
  {
    hide GenFieldEnc, KT;
    KtFieldCodec(f);
    KtPairNames();
    KtKeys();
  }

  lemma KtNoClash(f: Field, f': Field)
    requires KtField(f) && KtField(f') && SamePair(f, f')
    ensures Underlying(f.ty) == Underlying(f'.ty)
  {
    hide GenFieldEnc, KT;
    KtFieldCodec(f);
    KtFieldCodec(f');
    KtPairNames();
    KtKeys();
  }

  predicate EndsLikeFunc(name: string) {
    |name| >= 3 && name[|name| - 3..] == "ode"
  }

  lemma FuncsEnd(name: string, pair: string)
    requires IsFuncOf(name, pair)
    ensures EndsLikeFunc(name)
  {
    assert (pair + "Encode")[|pair| + 3..] == "ode" && (pair + "Decode")[|pair| + 3..] == "ode";
  }

  /** A name of kt begins with a capital and does not end like a function. */
  lemma KtNamesApart(n: string)
    requires n in KT_NAMES
    ensures n != [] && 'A' <= n[0] <= 'Z' && !EndsLikeFunc(n)
  {
  }

  lemma KtScopes()
    ensures ScopesOk(KT, KT_SUPPLIED)
  {
    hide KT, KT_NAMES, EndsLikeFunc, DecVar, IsFuncOf;
    KtPairNames();
    KtKeys();
    forall n | n in KT
      ensures n !in RESERVED && !DecVar(n, |KT[n].fields|)
    {
      KtNamesApart(n);
      UpperNotVar(n, |KT[n].fields|);
    }
    forall n, pair | n in KT && pair in KT.Keys + KT_SUPPLIED
      ensures !IsFuncOf(n, pair)
    {
      KtNamesApart(n);
      if IsFuncOf(n, pair) {
        FuncsEnd(n, pair);
      }
    }
  }

  lemma UpperNotVar(name: string, n: nat)
    requires name != [] && 'A' <= name[0] <= 'Z'
    ensures !DecVar(name, n)
  {
  }

  /** The message types of kt, with the two supplied pairs of functions, build. */
  lemma KtBuilds()
    ensures PackageSupported(KT) && Builds(KT, KT_SUPPLIED)
  {
    hide GenFieldEnc, KT, ScopesOk, FieldOk, SamePair, KtField, GoNames;
    KtSupported();
    KtScopes();
    forall n | n in KT
      ensures GoNames(KT[n]) && KT[n].typeParams == []
    {
      KtNames(n);
    }
    forall f | InPackage(KT, f) && GenFieldEnc(f).Some?
      ensures FieldOk(KT, KT_SUPPLIED, f)
    {
      KtFieldOk(f);
    }
    forall f, f' | InPackage(KT, f) && InPackage(KT, f') && SamePair(f, f')
      ensures Underlying(f.ty) == Underlying(f'.ty)
    {
      KtNoClash(f, f');
    }
    EpochField();
    BuildsIff(KT, KT_SUPPLIED);
  }

  lemma EpochField()
    ensures InPackage(KT, Plainly("Epoch", Uint64Ty))
  {
    assert "PreSigDig" in KT && KT["PreSigDig"] == PRE_SIG_DIG;
    assert PRE_SIG_DIG.fields[0] == Plainly("Epoch", Uint64Ty);
  }

  // ---- it round-trips

  /** The handlers are those of kt/serde_misc.go: for a map, any order of its entries each time. */
  ghost predicate KtHandlers(h: Handlers) {
    && (forall m, b :: EncodesMap(h.bytes(MAP_CODEC, MapOfBytes(m), b), m))
    && (forall b :: h.read(MAP_CODEC, b) == match MapDecode(b) case Bad => Bad case Ok(m, r) => ReadMap(m, r))
    && (forall s: seq<MembHideMsg>, b | |s| < U64_BOUND ::
          h.bytes(MEMB_HIDE_CODEC, MembHides(s), b) == IntBytes(|s|) + ManyBytes(s, WRITE_MEMB_HIDE))
    && (forall b :: h.read(MEMB_HIDE_CODEC, b)
                    == match LengthThen(b, READ_MEMB_HIDE)
                       case Bad => Bad
                       case Ok(s, r) => Ok(Handled(MembHides(s)), r))
  }

  /** A map of 2^64 entries or more is not a value. */
  function ReadMap(m: map<Slice, Slice>, r: Bytes): Dec<Val> {
    if |m| < U64_BOUND then Ok(Handled(MapOfBytes(m)), r) else Bad
  }

  lemma KtHandlersInverse(h: Handlers)
    requires KtHandlers(h)
    ensures HandlersInverse(KT, h)
  {
    hide KT;
    MapHandlerInverse(h);
    MembHandlerInverse(h);
    forall codec | Calls(KT, codec) && !Compiled(KT, codec) && IsHandler(codec)
      ensures codec == MAP_CODEC || codec == MEMB_HIDE_CODEC
    {
      CalledCodec(codec);
    }
  }

  lemma CalledCodec(codec: Codec)
    requires Calls(KT, codec) && !Compiled(KT, codec) && IsHandler(codec)
    ensures codec == MAP_CODEC || codec == MEMB_HIDE_CODEC
  {
    hide GenFieldEnc, KT;
    KtSupported();
    var n, f :| n in KT && f in KT[n].fields && GenFieldEnc(f).Some? && GenFieldEnc(f).value.codec == codec;
    assert InPackage(KT, f);
    KtFieldCodec(f);
    KtKeys();
  }

  lemma MapHandlerInverse(h: Handlers)
    requires KtHandlers(h)
    ensures HandlerInverse(h, MAP_CODEC)
  {
    hide MapDecode, EncodesMap;
    forall x, b, tail | Takes(MAP_CODEC, x)
      ensures h.read(MAP_CODEC, h.bytes(MAP_CODEC, x, b) + tail) == Ok(Handled(x), tail)
    {
      MapRead(h.bytes(MAP_CODEC, x, b), x.m, tail);
    }
  }

  lemma MembHandlerInverse(h: Handlers)
    requires KtHandlers(h)
    ensures HandlerInverse(h, MEMB_HIDE_CODEC)
  {
    hide LengthThen, ManyBytes;
    forall x, b, tail | Takes(MEMB_HIDE_CODEC, x)
      ensures h.read(MEMB_HIDE_CODEC, h.bytes(MEMB_HIDE_CODEC, x, b) + tail) == Ok(Handled(x), tail)
    {
      MembHideSliceRead(x.s, tail);
    }
  }

  lemma KtHasFields(n: string)
    requires n in KT
    ensures KT[n].fields != []
  {
  }

  /** Every message has a field, and none a constant: so encoders follow every pointer. */
  lemma {:induction false} KtReadsAll(v: Val, codec: Codec)
    requires Typed(KT, v, codec)
    ensures ReadsNoNil(KT, v, codec) <==> NoNil(v)
    decreases v
  {
    hide KT, GenFieldEnc, KtField;
    if Compiled(KT, codec) {
      KtHasFields(codec.name);
      var fields := KT[codec.name].fields;
      forall i: nat | i < |fields|
        ensures !ConstField(fields[i])
      {
        KtFields(codec.name, i);
        KtNotConst(fields[i]);
      }
      assert !ConstField(fields[0]);
      if v.StructVal? {
        forall i: nat | i < |v.fields|
          ensures ReadsNoNil(KT, v.fields[i], GenFieldEnc(fields[i]).value.codec) <==> NoNil(v.fields[i])
        {
          KtReadsAll(v.fields[i], GenFieldEnc(fields[i]).value.codec);
        }
      }
    } else {
      FlatNoNil(v, codec);
    }
  }

  lemma KtNotConst(f: Field)
    requires KtField(f)
    ensures !ConstField(f)
  {
  }

  lemma FlatNoNil(v: Val, codec: Codec)
    requires Typed(KT, v, codec) && !Compiled(KT, codec)
    ensures NoNil(v)
  {
    hide KT;
    FitsIff(KT, v, codec);
  }

  /** Every value of every message of kt: it has an encoding if and only if no pointer in it is nil, and
      then the encoding, in any order of its maps and followed by anything, is read back. */
  lemma KtRoundTrip(h: Handlers, name: string, v: Val, tail: Bytes, fuel: nat)
    requires KtHandlers(h) && name in KT && Typed(KT, v, StructCodec(name)) && Height(v) <= fuel + 1
    ensures Encode(KT, h, name, v, []).Some? <==> NoNil(v)
    ensures PackageSupported(KT)
    ensures NoNil(v) ==>
              RunPackage(KT, KT_SUPPLIED, h, name, Encode(KT, h, name, v, []).value + tail, fuel) == Ran(Ok(v, tail))
  {
    hide KT, GenFieldEnc, Encode, Decode, Builds, Buildable, GoNames, Typed, NoNil, ReadsNoNil, KtHandlers;
    hide HandlersInverse, Usable, Height;
    KtBuilds();
    KtHandlersInverse(h);
    forall n | n in KT
      ensures GoNames(KT[n])
    {
      KtNames(n);
    }
    BuildsIff(KT, KT_SUPPLIED);
    BuildableUsable(KT, KT_SUPPLIED);
    EncodeIff(KT, h, name, v, []);
    KtReadsAll(v, StructCodec(name));
    RoundTripIffBuildable(KT, KT_SUPPLIED, h, name, v, tail, fuel);
  }
}
