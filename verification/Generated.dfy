/** The codecs of kt/serde.out.go and merkle/serde.out.go that the protocol hashes, signs, proves and
    decodes with are what the compiler generates from the structs of kt/serde.go and merkle/serde.go. */
module Generated {
  import opened Bytes
  import opened KtTypes
  import opened MerkleProofs
  import opened Serde
  import opened SerdeBuild
  import opened SerdeCases

  const PRE_SIG_DIG: Struct := Struct("PreSigDig", [Plainly("Epoch", Uint64Ty), Plainly("Dig", BYTES_TY)])
  const MAP_LABEL_PRE: Struct := Struct("MapLabelPre", [Plainly("Uid", Uint64Ty), Plainly("Ver", Uint64Ty)])
  const COMMIT_OPEN: Struct := Struct("CommitOpen", [Plainly("Val", BYTES_TY), Plainly("Rand", BYTES_TY)])
  const MAP_VAL_PRE: Struct := Struct("MapValPre", [Plainly("Epoch", Uint64Ty), Plainly("PkCommit", BYTES_TY)])
  const MERKLE_PROOF: Struct :=
    Struct("MerkleProof", [Plainly("Siblings", BYTES_TY), Plainly("FoundOtherLeaf", BoolTy),
                           Plainly("LeafLabel", BYTES_TY), Plainly("LeafVal", BYTES_TY)])

  /** The package has this struct, under its name; it may have more. */
  predicate Has(pkg: Package, st: Struct) {
    st.name in pkg && pkg[st.name] == st
  }

  // ---- structs of integers, bools and byte slices

  predicate SimpleTy(ty: Ty) {
    ty.Uint64Ty? || ty.BoolTy? || ty == BYTES_TY
  }

  predicate Simple(st: Struct) {
    NamesDistinct(st) && forall f | f in st.fields :: f.cst.None? && SimpleTy(f.ty)
  }

  predicate SimpleVal(st: Struct, vals: seq<Val>) {
    |vals| == |st.fields|
    && forall i: nat | i < |vals| ::
         match st.fields[i].ty
         case Uint64Ty => vals[i].IntVal?
         case BoolTy => vals[i].BoolVal?
         case _ => vals[i].Slice1?
  }

  function WriteVal(b: Bytes, v: Val): Bytes {
    match v
    case IntVal(n) => WriteInt(b, n)
    case BoolVal(x) => WriteBool(b, x)
    case Slice1(s) => WriteSlice1D(b, s)
    case _ => b
  }

  function WriteVals(b: Bytes, vals: seq<Val>): Bytes {
    if vals == [] then b else WriteVal(WriteVals(b, vals[..|vals| - 1]), vals[|vals| - 1])
  }

  function ReadVal(ty: Ty, b: Bytes): Dec<Val> {
    match ty
    case Uint64Ty => (match ReadInt(b) case Bad => Bad case Ok(n, r) => Ok(IntVal(n), r))
    case BoolTy => (match ReadBool(b) case Bad => Bad case Ok(x, r) => Ok(BoolVal(x), r))
    case _ => (match ReadSlice1D(b) case Bad => Bad case Ok(s, r) => Ok(Slice1(s), r))
  }

  function ReadVals(fields: seq<Field>, b: Bytes): (r: Dec<seq<Val>>)
    ensures r.Ok? ==> |r.val| == |fields|
  {
    if fields == [] then Ok([], b)
    else
      match ReadVals(fields[..|fields| - 1], b)
      case Bad => Bad
      case Ok(vals, b') =>
        match ReadVal(fields[|fields| - 1].ty, b')
        case Bad => Bad
        case Ok(v, r) => Ok(vals + [v], r)
  }

  lemma SimpleCodec(f: Field)
    requires f.cst.None? && SimpleTy(f.ty)
    ensures var codec := if f.ty.Uint64Ty? then IntCodec else if f.ty.BoolTy? then BoolCodec else SliceCodec(1);
            GenFieldEnc(f) == Some(EncStmt(codec, FieldArg(f.name)))
  {
    assert GenSliceEnc(ByteTy, 1) == Some(SliceCodec(1));
  }

  lemma SimpleSupported(st: Struct)
    requires Simple(st)
    ensures Supported(st)
  {
    hide GenFieldEnc;
    forall f | f in st.fields
      ensures GenFieldEnc(f).Some?
    {
      SimpleCodec(f);
    }
    SupportedIf(st);
  }

  lemma SimpleStmts(st: Struct, i: nat)
    requires Simple(st) && Supported(st) && i < |st.fields|
    ensures var f := st.fields[i];
            var codec := if f.ty.Uint64Ty? then IntCodec else if f.ty.BoolTy? then BoolCodec else SliceCodec(1);
            && GenEncode(st)[i] == EncStmt(codec, FieldArg(f.name))
            && GenDecode(st).stmts[i] == DecStmt(codec, None, i, i + 1)
            && FieldIndex(st.fields, f.name) == i
  {
    hide GenFieldEnc, GenFieldDec;
    assert st.fields[i] in st.fields;
    SimpleCodec(st.fields[i]);
    StmtsOf(st, i);
    DistinctIndex(st, i);
  }

  lemma SimpleField(pkg: Package, h: Handlers, st: Struct, vals: seq<Val>, b: Bytes, n: nat)
    requires Has(pkg, st) && Simple(st) && SimpleVal(st, vals) && 0 < n <= |vals|
    requires Supported(st)
    ensures RunEncStmt(pkg, h, st.name, StructVal(vals), b, GenEncode(st)[n - 1]) == Some(WriteVal(b, vals[n - 1]))
  {
    hide GenFieldEnc, GenEncode;
    SimpleStmts(st, n - 1);
  }

  lemma {:induction false} SimpleRun(pkg: Package, h: Handlers, st: Struct, vals: seq<Val>, b0: Bytes, n: nat)
    requires Has(pkg, st) && Simple(st) && SimpleVal(st, vals) && n <= |vals| && Supported(st)
    ensures RunEnc(pkg, h, st.name, StructVal(vals), b0, n) == Some(WriteVals(b0, vals[..n]))
  {
    hide WriteVal, RunEncStmt, Simple, SimpleVal, GenEncode;
    if n > 0 {
      SimpleRun(pkg, h, st, vals, b0, n - 1);
      SimpleField(pkg, h, st, vals, WriteVals(b0, vals[..n - 1]), n);
      assert vals[..n][..n - 1] == vals[..n - 1];
    }
  }

  /** The generated encoder of such a struct writes the fields in their order. */
  lemma SimpleEncode(pkg: Package, h: Handlers, st: Struct, vals: seq<Val>, b0: Bytes)
    requires Has(pkg, st) && Simple(st) && SimpleVal(st, vals)
    ensures Encode(pkg, h, st.name, StructVal(vals), b0) == Some(WriteVals(b0, vals))
  {
    hide RunEnc;
    SimpleSupported(st);
    SimpleRun(pkg, h, st, vals, b0, |vals|);
    assert vals[..|vals|] == vals;
  }

  lemma SimpleRead(pkg: Package, h: Handlers, st: Struct, env: Env, n: nat)
    requires Simple(st) && Supported(st) && 0 < n <= |st.fields|
    requires |env.vals| == n - 1 && |env.bufs| == n
    ensures var stmt := GenDecode(st).stmts[n - 1];
            && stmt.oldB == n - 1 && stmt.newB == n && !stmt.codec.StructCodec?
            && ReadBasic(h, stmt.codec, stmt.lit, env.bufs[n - 1]) == ReadVal(st.fields[n - 1].ty, env.bufs[n - 1])
  {
    hide GenFieldEnc, GenFieldDec, GenDecode;
    SimpleStmts(st, n - 1);
  }

  /** The first n statements of the decoder. */
  lemma {:induction false} SimpleRunDec(pkg: Package, h: Handlers, st: Struct, b: Bytes, n: nat, fuel: nat)
    requires Simple(st) && Supported(st) && n <= |st.fields|
    ensures var env, r := RunDec(pkg, h, GenDecode(st).stmts, b, n, fuel), ReadVals(st.fields[..n], b);
            && (env.Some? <==> r.Ok?)
            && (env.Some? ==> env.value.vals == r.val && |env.value.bufs| == n + 1 && env.value.bufs[n] == r.rest)
  {
    hide GenDecode, ReadBasic, ReadVal, Simple, Supported, Decode;
    GenLengths(st);
    if n > 0 {
      SimpleRunDec(pkg, h, st, b, n - 1, fuel);
      assert st.fields[..n][..n - 1] == st.fields[..n - 1];
      var env := RunDec(pkg, h, GenDecode(st).stmts, b, n - 1, fuel);
      if env.Some? {
        SimpleRead(pkg, h, st, env.value, n);
      }
    }
  }

  /** The generated decoder of such a struct reads the fields in their order, from any bytes. */
  lemma SimpleDecode(pkg: Package, h: Handlers, st: Struct, b: Bytes, fuel: nat)
    requires Has(pkg, st) && Simple(st)
    ensures Decode(pkg, h, st.name, b, fuel)
            == match ReadVals(st.fields, b) case Bad => Bad case Ok(vals, rest) => Ok(StructVal(vals), rest)
  {
    hide RunDec, ReadVals, InitVal;
    SimpleSupported(st);
    SimpleRunDec(pkg, h, st, b, |st.fields|, fuel);
    assert st.fields[..|st.fields|] == st.fields;
    var r, inits := ReadVals(st.fields, b), GenDecode(st).inits;
    if r.Ok? {
      forall i: nat | i < |st.fields|
        ensures InitVal(inits, r.val, st.fields[i].name) == Some(r.val[i])
      {
        InitsBind(inits, r.val, st, 0, i);
      }
      assert r.val == seq(|st.fields|, i requires 0 <= i < |st.fields| =>
             InitVal(inits, r.val, st.fields[i].name).value);
    }
  }

  // ---- the codecs in use

  lemma WriteTwo(b0: Bytes, x: Val, y: Val)
    ensures WriteVals(b0, [x, y]) == WriteVal(WriteVal(b0, x), y)
  {
    hide WriteVal;
    assert [x][..0] == [];
    assert WriteVals(b0, [x]) == WriteVal(b0, x);
    assert [x, y][..1] == [x];
  }

  lemma PreSigDigGenerated(pkg: Package, h: Handlers, o: PreSigDig, b0: Bytes)
    requires Has(pkg, PRE_SIG_DIG)
    ensures Encode(pkg, h, "PreSigDig", StructVal([IntVal(o.epoch), Slice1(o.dig)]), b0) == Some(PreSigDigEncode(b0, o))
  {
    SimpleEncode(pkg, h, PRE_SIG_DIG, [IntVal(o.epoch), Slice1(o.dig)], b0);
    WriteTwo(b0, IntVal(o.epoch), Slice1(o.dig));
  }

  lemma MapLabelPreGenerated(pkg: Package, h: Handlers, o: MapLabelPre, b0: Bytes)
    requires Has(pkg, MAP_LABEL_PRE)
    ensures Encode(pkg, h, "MapLabelPre", StructVal([IntVal(o.uid), IntVal(o.ver)]), b0)
            == Some(MapLabelPreEncode(b0, o))
  {
    SimpleEncode(pkg, h, MAP_LABEL_PRE, [IntVal(o.uid), IntVal(o.ver)], b0);
    WriteTwo(b0, IntVal(o.uid), IntVal(o.ver));
  }

  lemma CommitOpenGenerated(pkg: Package, h: Handlers, o: CommitOpen, b0: Bytes)
    requires Has(pkg, COMMIT_OPEN)
    ensures Encode(pkg, h, "CommitOpen", StructVal([Slice1(o.val), Slice1(o.rand)]), b0)
            == Some(CommitOpenEncode(b0, o))
  {
    SimpleEncode(pkg, h, COMMIT_OPEN, [Slice1(o.val), Slice1(o.rand)], b0);
    WriteTwo(b0, Slice1(o.val), Slice1(o.rand));
  }

  lemma MapValPreGenerated(pkg: Package, h: Handlers, o: MapValPre, b0: Bytes)
    requires Has(pkg, MAP_VAL_PRE)
    ensures Encode(pkg, h, "MapValPre", StructVal([IntVal(o.epoch), Slice1(o.pkCommit)]), b0)
            == Some(MapValPreEncode(b0, o))
  {
    SimpleEncode(pkg, h, MAP_VAL_PRE, [IntVal(o.epoch), Slice1(o.pkCommit)], b0);
    WriteTwo(b0, IntVal(o.epoch), Slice1(o.pkCommit));
  }

  lemma MerkleProofGenerated(pkg: Package, h: Handlers, o: MerkleProof, b0: Bytes)
    requires Has(pkg, MERKLE_PROOF)
    ensures Encode(pkg, h, "MerkleProof",
                   StructVal([Slice1(o.siblings), BoolVal(o.foundOtherLeaf), Slice1(o.leafLabel), Slice1(o.leafVal)]),
                   b0)
            == Some(MerkleProofEncode(b0, o))
  {
    var vals := [Slice1(o.siblings), BoolVal(o.foundOtherLeaf), Slice1(o.leafLabel), Slice1(o.leafVal)];
    SimpleEncode(pkg, h, MERKLE_PROOF, vals, b0);
    WriteTwo(b0, vals[0], vals[1]);
    assert vals[..3] == [vals[0], vals[1], vals[2]] && vals[..3][..2] == [vals[0], vals[1]];
  }

  function ReadThen(r: Dec<seq<Val>>, ty: Ty): Dec<seq<Val>> {
    match r
    case Bad => Bad
    case Ok(vals, b) => (match ReadVal(ty, b) case Bad => Bad case Ok(v, rest) => Ok(vals + [v], rest))
  }

  lemma ReadOneMore(fields: seq<Field>, n: nat, b: Bytes)
    requires n < |fields|
    ensures ReadVals(fields[..n + 1], b) == ReadThen(ReadVals(fields[..n], b), fields[n].ty)
  {
    hide ReadVal;
    assert fields[..n + 1][..n] == fields[..n];
  }

  lemma ReadTwo(fields: seq<Field>, b: Bytes)
    requires |fields| >= 2
    ensures ReadVals(fields[..2], b) == ReadThen(ReadThen(Ok([], b), fields[0].ty), fields[1].ty)
  {
    hide ReadThen;
    ReadOneMore(fields, 0, b);
    ReadOneMore(fields, 1, b);
  }

  /** Whatever the bytes, the decoder that auditors use is the generated one. */
  lemma MapValPreDecodeGenerated(pkg: Package, h: Handlers, b: Bytes, fuel: nat)
    requires Has(pkg, MAP_VAL_PRE)
    ensures Decode(pkg, h, "MapValPre", b, fuel)
            == match MapValPreDecode(b)
               case Bad => Bad
               case Ok(o, rest) => Ok(StructVal([IntVal(o.epoch), Slice1(o.pkCommit)]), rest)
  {
    hide Decode, ReadInt, ReadSlice1D;
    SimpleDecode(pkg, h, MAP_VAL_PRE, b, fuel);
    ReadTwo(MAP_VAL_PRE.fields, b);
    assert MAP_VAL_PRE.fields[..2] == MAP_VAL_PRE.fields;
    assert MAP_VAL_PRE.fields[0].ty == Uint64Ty && MAP_VAL_PRE.fields[1].ty == BYTES_TY;
    assert forall x: Val, y: Val :: [] + [x] + [y] == [x, y];
  }

  lemma ReadFour(fields: seq<Field>, b: Bytes)
    requires |fields| == 4 && fields[0].ty == fields[2].ty == fields[3].ty == BYTES_TY && fields[1].ty == BoolTy
    ensures ReadVals(fields, b)
            == match ReadSlice1D(b) case Bad => Bad case Ok(a1, b1) =>
               match ReadBool(b1) case Bad => Bad case Ok(a2, b2) =>
               match ReadSlice1D(b2) case Bad => Bad case Ok(a3, b3) =>
               match ReadSlice1D(b3) case Bad => Bad case Ok(a4, b4) =>
               Ok([Slice1(a1), BoolVal(a2), Slice1(a3), Slice1(a4)], b4)
  {
    hide ReadVals, ReadSlice1D, ReadBool;
    ReadTwo(fields, b);
    ReadOneMore(fields, 2, b);
    ReadOneMore(fields, 3, b);
    assert fields[..4] == fields;
    assert forall x: Val, y: Val :: [] + [x] + [y] == [x, y];
    assert forall x: Val, y: Val, z: Val :: [x, y] + [z] == [x, y, z];
    assert forall x: Val, y: Val, z: Val, w: Val :: [x, y, z] + [w] == [x, y, z, w];
  }

  /** Whatever the bytes, the decoder that Verify uses is the generated one. */
  lemma MerkleProofDecodeGenerated(pkg: Package, h: Handlers, b: Bytes, fuel: nat)
    requires Has(pkg, MERKLE_PROOF)
    ensures Decode(pkg, h, "MerkleProof", b, fuel)
            == match MerkleProofDecode(b)
               case Bad => Bad
               case Ok(o, rest) =>
                 Ok(StructVal([Slice1(o.siblings), BoolVal(o.foundOtherLeaf), Slice1(o.leafLabel), Slice1(o.leafVal)]),
                    rest)
  {
    hide Decode, ReadSlice1D, ReadBool, ReadVals, Has;
    SimpleDecode(pkg, h, MERKLE_PROOF, b, fuel);
    ReadFour(MERKLE_PROOF.fields, b);
  }
}
