/** The schemas of serde/testdata, and others, against the condition of SerdeBuild. */
module SerdeCases {
  import opened Bytes
  import opened Serde
  import opened SerdeNames
  import opened SerdeBuild

  const BYTES_TY: Ty := SliceTy(ByteTy)

  function Plainly(name: string, ty: Ty): Field {
    Field(name, ty, None)
  }

  function One(st: Struct): Package {
    map[st.name := st]
  }

  lemma SupportedIf(st: Struct)
    requires forall f | f in st.fields :: GenFieldEnc(f).Some?
    ensures Supported(st)
  {
    hide GenFieldEnc;
    forall i: nat | i < |st.fields|
      ensures GenFieldEnc(st.fields[i]).Some?
    {
      assert st.fields[i] in st.fields;
    }
  }

  // ---- the generated statements, as in the golden files

  lemma Stmt(f: Field, i: nat, codec: Codec)
    requires GenFieldEnc(f).Some? && GenFieldEnc(f).value.codec == codec
    ensures GenFieldEnc(f) == Some(EncStmt(codec, if ConstField(f) then LitArg(ConstOf(f).value) else FieldArg(f.name)))
    ensures GenFieldDec(f, i) == Some(DecStmt(codec, ConstOf(f), i, i + 1))
  {
    FieldGensAgree(f, i);
  }

  /** serde/testdata/types/types.go */
  const TYPES_ARGS: Struct :=
    Struct("args", [Plainly("a1", BoolTy), Plainly("a2", ByteTy), Plainly("a3", Uint64Ty), Plainly("a4", BYTES_TY),
                    Plainly("a5", SliceTy(BYTES_TY)), Plainly("a6", SliceTy(SliceTy(BYTES_TY)))])

  /** serde/testdata/types/types.golden.go: bools, bytes, integers, and byte slices up to depth 3. */
  lemma TypesGolden()
    ensures Supported(TYPES_ARGS)
    ensures GenEncode(TYPES_ARGS)
            == [EncStmt(BoolCodec, FieldArg("a1")), EncStmt(ByteCodec, FieldArg("a2")),
                EncStmt(IntCodec, FieldArg("a3")), EncStmt(SliceCodec(1), FieldArg("a4")),
                EncStmt(SliceCodec(2), FieldArg("a5")), EncStmt(SliceCodec(3), FieldArg("a6"))]
    ensures GenDecode(TYPES_ARGS)
            == DecFunc([DecStmt(BoolCodec, None, 0, 1), DecStmt(ByteCodec, None, 1, 2), DecStmt(IntCodec, None, 2, 3),
                        DecStmt(SliceCodec(1), None, 3, 4), DecStmt(SliceCodec(2), None, 4, 5),
                        DecStmt(SliceCodec(3), None, 5, 6)],
                       [Init("a1", 1), Init("a2", 2), Init("a3", 3), Init("a4", 4), Init("a5", 5), Init("a6", 6)], 6)
  {
    hide GenFieldEnc, GenFieldDec;
    var fs := TYPES_ARGS.fields;
    TypesCodecs();
    SupportedIf(TYPES_ARGS);
    Stmt(fs[0], 0, BoolCodec);
    Stmt(fs[1], 1, ByteCodec);
    Stmt(fs[2], 2, IntCodec);
    Stmt(fs[3], 3, SliceCodec(1));
    Stmt(fs[4], 4, SliceCodec(2));
    Stmt(fs[5], 5, SliceCodec(3));
  }

  lemma TypesCodecs()
    ensures var fs := TYPES_ARGS.fields;
            && (forall i: nat | i < 6 :: GenFieldEnc(fs[i]).Some? && !ConstField(fs[i]))
            && GenFieldEnc(fs[0]).value.codec == BoolCodec && GenFieldEnc(fs[1]).value.codec == ByteCodec
            && GenFieldEnc(fs[2]).value.codec == IntCodec && GenFieldEnc(fs[3]).value.codec == SliceCodec(1)
            && GenFieldEnc(fs[4]).value.codec == SliceCodec(2) && GenFieldEnc(fs[5]).value.codec == SliceCodec(3)
  {
    assert GenSliceEnc(ByteTy, 1) == Some(SliceCodec(1));
    assert GenSliceEnc(ByteTy, 2) == Some(SliceCodec(2)) == GenSliceEnc(SliceTy(ByteTy), 1);
    assert GenSliceEnc(ByteTy, 3) == Some(SliceCodec(3)) == GenSliceEnc(SliceTy(ByteTy), 2);
    assert GenSliceEnc(SliceTy(SliceTy(ByteTy)), 1) == Some(SliceCodec(3));
  }

  /** The compiler panics on slices nested deeper. */
  lemma TooDeep(name: string, depth: nat)
    requires depth > 3
    ensures GenFieldEnc(Plainly(name, ByteSlices(depth))).None?
  {
    NestingEnds(depth - 1, 1);
  }

  lemma {:induction false} NestingEnds(below: nat, depth: nat)
    requires below + depth > 3
    ensures GenSliceEnc(ByteSlices(below), depth).None?
    decreases below
  {
    if depth <= 3 {
      NestingEnds(below - 1, depth + 1);
    }
  }

  /** serde/testdata/const/const.golden.go */
  lemma ConstGolden()
    ensures Supported(CONST_ARGS)
    ensures GenEncode(CONST_ARGS)
            == [EncStmt(BoolCodec, LitArg(BoolVal(true))), EncStmt(ByteCodec, LitArg(ByteVal(3))),
                EncStmt(IntCodec, LitArg(IntVal(3)))]
    ensures GenDecode(CONST_ARGS).stmts
            == [DecStmt(BoolCodec, Some(BoolVal(true)), 0, 1), DecStmt(ByteCodec, Some(ByteVal(3)), 1, 2),
                DecStmt(IntCodec, Some(IntVal(3)), 2, 3)]
  {
    SupportedIf(CONST_ARGS);
  }

  /** serde/testdata/alias/alias.golden.go: an alias and a defined type are treated alike. */
  lemma AliasGolden()
    ensures Supported(ALIAS_ARG)
    ensures GenEncode(ALIAS_ARG) == [EncStmt(IntCodec, FieldArg("x")), EncStmt(IntCodec, FieldArg("y"))]
    ensures GenDecode(ALIAS_ARG).stmts == [DecStmt(IntCodec, None, 0, 1), DecStmt(IntCodec, None, 1, 2)]
  {
    SupportedIf(ALIAS_ARG);
  }

  /** serde/testdata/nest/nest.golden.go */
  lemma NestGolden()
    ensures Supported(NEST_OUTER)
    ensures GenEncode(NEST_OUTER)
            == [EncStmt(StructCodec("inner"), FieldArg("a1")), EncStmt(StructSliceCodec("inner", 1), FieldArg("a2")),
                EncStmt(MapCodec("Mapuint64inner"), FieldArg("a3"))]
    ensures GenDecode(NEST_OUTER).stmts
            == [DecStmt(StructCodec("inner"), None, 0, 1), DecStmt(StructSliceCodec("inner", 1), None, 1, 2),
                DecStmt(MapCodec("Mapuint64inner"), None, 2, 3)]
  {
    hide GenFieldEnc, GenFieldDec;
    NestCodecs();
    SupportedIf(NEST_OUTER);
    Stmt(NEST_OUTER.fields[0], 0, StructCodec("inner"));
    Stmt(NEST_OUTER.fields[1], 1, StructSliceCodec("inner", 1));
    Stmt(NEST_OUTER.fields[2], 2, MapCodec("Mapuint64inner"));
  }

  // ---- schemas that do not build

  /** serde/testdata/const/const.go */
  const CONST_ARGS: Struct :=
    Struct("args", [Field("a1", BoolTy, Some(BoolVal(true))), Field("a2", ByteTy, Some(ByteVal(3))),
                    Field("a3", Uint64Ty, Some(IntVal(3)))])

  lemma ConstPackageFails(supplied: set<string>)
    ensures PackageSupported(One(CONST_ARGS)) && !Builds(One(CONST_ARGS), supplied)
  {
    SupportedIf(CONST_ARGS);
    FieldFails(CONST_ARGS, 0, supplied);
  }

  /** serde/testdata/alias/alias.go: the first field is of an alias, the second of a defined type. */
  const ALIAS_ARG: Struct :=
    Struct("arg", [Plainly("x", Uint64Ty),
                   Plainly("y", DefinedTy("github.com/mit-pdos/pav/serde/testdata/alias/other", "DefInt", Uint64Ty))])

  lemma AliasPackageFails(supplied: set<string>)
    ensures PackageSupported(One(ALIAS_ARG)) && !Builds(One(ALIAS_ARG), supplied)
  {
    SupportedIf(ALIAS_ARG);
    FieldFails(ALIAS_ARG, 1, supplied);
  }

  /** A pointer to a struct that has no codec. */
  const ELSEWHERE: Struct :=
    Struct("arg", [Plainly("x", Uint64Ty), Plainly("y", PointerTy(StructRef("other", "Elsewhere")))])

  lemma ElsewhereFails()
    ensures PackageSupported(One(ELSEWHERE)) && !Builds(One(ELSEWHERE), {})
  {
    SupportedIf(ELSEWHERE);
    FieldFails(ELSEWHERE, 1, {});
  }

  lemma FieldFails(st: Struct, i: nat, supplied: set<string>)
    requires Supported(st) && GoNames(st) && i < |st.fields| && !FieldOk(One(st), supplied, st.fields[i])
    ensures PackageSupported(One(st)) && !Builds(One(st), supplied)
  {
    hide GenFieldEnc, FieldOk;
    assert One(st)[st.name] == st;
    BuildsIff(One(st), supplied);
    assert InPackage(One(st), st.fields[i]);
    assert GenFieldEnc(st.fields[i]).Some?;
  }

  /** Maps to byte slices and to pointers to a struct called Slbyte. */
  const STRING_TO_BYTES: Ty := MapTy(OtherBasic("string"), BYTES_TY)
  const STRING_TO_SLBYTE: Ty := MapTy(OtherBasic("string"), Local("Slbyte"))
  const TWO_MAPS: Struct :=
    Struct("arg", [Plainly("x", Uint64Ty), Plainly("y", STRING_TO_BYTES), Plainly("z", STRING_TO_SLBYTE)])

  lemma StringMapNames()
    ensures CanonTyName(STRING_TO_BYTES) == CanonTyName(STRING_TO_SLBYTE) == Some("MapstringSlbyte")
  {
    assert "Sl" + "byte" == "Slbyte";
    assert "Map" + "string" + "Slbyte" == "MapstringSlbyte";
    StructNamedLikeType("Slbyte", BYTES_TY, OtherBasic("string"));
  }

  lemma TwoMapsFail(supplied: set<string>)
    ensures PackageSupported(One(TWO_MAPS)) && !Builds(One(TWO_MAPS), supplied)
  {
    StringMapNames();
    SupportedIf(TWO_MAPS);
    var pkg := One(TWO_MAPS);
    assert pkg["arg"] == TWO_MAPS;
    BuildsIff(pkg, supplied);
    var f, f' := TWO_MAPS.fields[1], TWO_MAPS.fields[2];
    assert InPackage(pkg, f) && InPackage(pkg, f') && SamePair(f, f');
  }

  /** Byte slices only: the import of marshal is not used. */
  const ONLY_BYTES: Struct := Struct("arg", [Plainly("x", BYTES_TY)])

  lemma OnlyBytesFails(supplied: set<string>)
    ensures PackageSupported(One(ONLY_BYTES)) && !Builds(One(ONLY_BYTES), supplied)
  {
    SupportedIf(ONLY_BYTES);
    assert One(ONLY_BYTES)["arg"] == ONLY_BYTES;
    BuildsIff(One(ONLY_BYTES), supplied);
  }

  /** type arg[T any] struct { x uint64 } */
  const GENERIC_ARG: Struct := Struct("arg", [Plainly("x", Uint64Ty)], ["T"])

  lemma GenericFails(supplied: set<string>)
    ensures PackageSupported(One(GENERIC_ARG)) && !Builds(One(GENERIC_ARG), supplied)
  {
    SupportedIf(GENERIC_ARG);
    assert One(GENERIC_ARG)["arg"] == GENERIC_ARG;
    BuildsIff(One(GENERIC_ARG), supplied);
  }

  /** The compiler accepts the struct, and what it generates does not build. */
  ghost predicate Fails(st: Struct, supplied: set<string>) {
    PackageSupported(One(st)) && !Builds(One(st), supplied)
  }

  function Named1(name: string): Struct {
    Struct(name, [Plainly("x", Uint64Ty)])
  }

  /** Structs whose names are hidden in their decoder, reserved, supplied again, or those of functions. */
  lemma NameFails(name: string, supplied: set<string>)
    requires || name in RESERVED + {"b0", "a1", "b1", "err1"} || name in supplied
             || exists pair :: pair in supplied && IsFuncOf(name, pair)
    ensures Fails(Named1(name), supplied)
  {
    hide GenFieldEnc;
    var st := Named1(name);
    Uint64Supported(st);
    NamesHidden(name);
    assert One(st)[name] == st;
    BuildsIff(One(st), supplied);
  }

  lemma Uint64Supported(st: Struct)
    requires forall f | f in st.fields :: f == Plainly(f.name, Uint64Ty)
    ensures Supported(st)
  {
    forall f | f in st.fields
      ensures GenFieldEnc(f).Some?
    {
    }
    SupportedIf(st);
  }

  lemma NamesHidden(name: string)
    ensures name in {"b0", "a1", "b1", "err1"} ==> DecVar(name, 1)
  {
    assert Decimal(1) == "1";
    assert name in {"a1", "b1", "err1"} ==> NumberedVar(name, Decimal(1));
  }

  /** A blank field. */
  lemma BlankFails(name: string, supplied: set<string>)
    ensures Fails(Struct(name, [Plainly("x", Uint64Ty), Plainly("_", Uint64Ty)]), supplied)
  {
    var st := Struct(name, [Plainly("x", Uint64Ty), Plainly("_", Uint64Ty)]);
    SupportedIf(st);
    FieldFails(st, 1, supplied);
  }

  // ---- schemas that build

  /** serde/testdata/nest/nest.go */
  const NEST_INNER: Struct := Struct("inner", [Plainly("a1", Uint64Ty)])
  const NEST_OUTER: Struct :=
    Struct("outer", [Plainly("a1", Local("inner")), Plainly("a2", SliceTy(Local("inner"))),
                     Plainly("a3", MapTy(Uint64Ty, Local("inner")))])
  const NEST: Package := map["inner" := NEST_INNER, "outer" := NEST_OUTER]
  const NEST_SUPPLIED: set<string> := {"innerSlice1D", "Mapuint64inner"}

  lemma NestCodecs()
    ensures PackageSupported(NEST)
    ensures GenFieldEnc(NEST_OUTER.fields[0]) == Some(EncStmt(StructCodec("inner"), FieldArg("a1")))
    ensures GenFieldEnc(NEST_OUTER.fields[1]) == Some(EncStmt(StructSliceCodec("inner", 1), FieldArg("a2")))
    ensures GenFieldEnc(NEST_OUTER.fields[2]) == Some(EncStmt(MapCodec("Mapuint64inner"), FieldArg("a3")))
    ensures PairName(StructSliceCodec("inner", 1)) == "innerSlice1D"
  {
    assert "Map" + "uint64" + "inner" == "Mapuint64inner";
    assert Decimal(1) == "1";
    assert "inner" + "Slice" + "1" + "D" == "innerSlice1D";
    SupportedIf(NEST_INNER);
    SupportedIf(NEST_OUTER);
  }

  lemma NestFields(f: Field)
    requires InPackage(NEST, f)
    ensures f == NEST_INNER.fields[0] || f == NEST_OUTER.fields[0] || f == NEST_OUTER.fields[1]
            || f == NEST_OUTER.fields[2]
  {
  }

  lemma NestScopes()
    ensures ScopesOk(NEST, NEST_SUPPLIED)
  {
    forall n | n in NEST
      ensures n !in RESERVED && !DecVar(n, |NEST[n].fields|)
    {
    }
    forall n, pair | n in NEST && pair in NEST.Keys + NEST_SUPPLIED
      ensures !IsFuncOf(n, pair)
    {
    }
  }

  lemma NestBuilds()
    ensures PackageSupported(NEST) && Builds(NEST, NEST_SUPPLIED)
  {
    hide GenFieldEnc, ScopesOk, FieldOk, SamePair, InPackage;
    NestCodecs();
    NestScopes();
    forall f | InPackage(NEST, f) && GenFieldEnc(f).Some?
      ensures FieldOk(NEST, NEST_SUPPLIED, f)
    {
      NestFieldOk(f);
    }
    forall f, f' | InPackage(NEST, f) && InPackage(NEST, f') && SamePair(f, f')
      ensures Underlying(f.ty) == Underlying(f'.ty)
    {
      NestNoClash(f, f');
    }
    NestUint64();
    BuildsIff(NEST, NEST_SUPPLIED);
  }

  lemma NestFieldOk(f: Field)
    requires InPackage(NEST, f) && GenFieldEnc(f).Some?
    ensures FieldOk(NEST, NEST_SUPPLIED, f)
  {
    hide GenFieldEnc, InPackage;
    NestCodecs();
    InnerSupported();
    NestFields(f);
  }

  lemma NestNoClash(f: Field, f': Field)
    requires InPackage(NEST, f) && InPackage(NEST, f') && SamePair(f, f')
    ensures Underlying(f.ty) == Underlying(f'.ty)
  {
    hide GenFieldEnc, InPackage;
    NestCodecs();
    InnerSupported();
    NestFields(f);
    NestFields(f');
  }

  lemma NestUint64()
    ensures InPackage(NEST, NEST_INNER.fields[0]) && NEST_INNER.fields[0].ty == Uint64Ty
  {
    assert "inner" in NEST && NEST["inner"] == NEST_INNER;
  }

  lemma InnerSupported()
    ensures GenFieldEnc(NEST_INNER.fields[0]) == Some(EncStmt(IntCodec, FieldArg("a1")))
  {
  }
}
