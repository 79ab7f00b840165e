/** Whether what serde/compiler.go generates is a Go program: imports, scopes, and the types of the
    calls and assignments. Exactly which packages build, hence which round-trip. */
module SerdeBuild {
  import opened Bytes
  import opened Serde
  import opened SerdeNames

  // ---- Go's rules

  /** Predeclared and defined types have names of their own. */
  predicate Named(ty: Ty) {
    IsBasic(ty) || ty.DefinedTy?
  }

  /** A value of type v may be assigned to a variable of type t: the types are identical, or their
      underlying types are and one of them has no name. */
  predicate Assignable(v: Ty, t: Ty) {
    v == t || (Underlying(v) == Underlying(t) && !(Named(v) && Named(t)))
  }

  function Decimal(n: nat): (s: string)
    ensures s != []
  {
    var digit := "0123456789"[n % 10];
    if n < 10 then [digit] else Decimal(n / 10) + [digit]
  }

  // ---- the functions that generated code calls

  /** Name of a pair of the package's own functions, without Encode or Decode. */
  function PairName(codec: Codec): string
    requires IsHandler(codec)
  {
    match codec
    case StructCodec(name) => name
    case StructSliceCodec(name, depth) => name + "Slice" + Decimal(depth) + "D"
    case MapCodec(canon) => canon
  }

  function ByteSlices(depth: nat): Ty {
    if depth == 0 then ByteTy else SliceTy(ByteSlices(depth - 1))
  }

  /** For which type each pair of the package's own functions is declared. */
  type Sigs = map<string, Ty>

  /** The type of what the pair of functions writes and reads; none if it is not declared. */
  function PairTy(sigs: Sigs, codec: Codec): Option<Ty> {
    match codec
    case BoolCodec => Some(BoolTy)
    case ByteCodec => Some(ByteTy)
    case IntCodec => Some(Uint64Ty)
    case SliceCodec(depth) => Some(ByteSlices(depth))
    case _ => if PairName(codec) in sigs then Some(sigs[PairName(codec)]) else None
  }

  /** What a reader returns, before the error: ReadConstBool and the like return no value. */
  function Results(sigs: Sigs, stmt: DecStmt): seq<Ty>
    requires PairTy(sigs, stmt.codec).Some?
  {
    (if stmt.lit.Some? then [] else [PairTy(sigs, stmt.codec).value]) + [ByteSlices(1), BoolTy]
  }

  predicate LitHasTy(lit: Val, ty: Ty) {
    match lit
    case BoolVal(_) => ty.BoolTy?
    case ByteVal(_) => ty.ByteTy?
    case IntVal(_) => ty.Uint64Ty?
    case _ => false
  }

  function FieldTy(st: Struct, name: string): Option<Ty> {
    var i := FieldIndex(st.fields, name);
    if name != "_" && i < |st.fields| then Some(st.fields[i].ty) else None
  }

  /** b = Write...(b, arg) */
  predicate EncStmtBuilds(sigs: Sigs, st: Struct, stmt: EncStmt) {
    && PairTy(sigs, stmt.codec).Some?
    && match stmt.arg
       case LitArg(lit) => LitHasTy(lit, PairTy(sigs, stmt.codec).value)
       case FieldArg(name) =>
         FieldTy(st, name).Some? && Assignable(FieldTy(st, name).value, PairTy(sigs, stmt.codec).value)
  }

  /** a, b, err := Read...(b) */
  predicate DecStmtBuilds(sigs: Sigs, stmt: DecStmt) {
    PairTy(sigs, stmt.codec).Some? && |Results(sigs, stmt)| == 3
  }

  /** key: a, in the composite literal that is returned. */
  predicate InitBuilds(sigs: Sigs, st: Struct, stmts: seq<DecStmt>, init: Init) {
    && 0 < init.var_ <= |stmts| && DecStmtBuilds(sigs, stmts[init.var_ - 1]) && FieldTy(st, init.key).Some?
    && Assignable(Results(sigs, stmts[init.var_ - 1])[0], FieldTy(st, init.key).value)
  }

  /** The functions take and return *T, which is a type only if T has no type parameters. */
  predicate StructBuilds(sigs: Sigs, st: Struct)
    requires Supported(st)
  {
    && st.typeParams == []
    && (forall i: nat | i < |GenEncode(st)| :: EncStmtBuilds(sigs, st, GenEncode(st)[i]))
    && (forall i: nat | i < |GenDecode(st).stmts| :: DecStmtBuilds(sigs, GenDecode(st).stmts[i]))
    && (forall i: nat | i < |GenDecode(st).inits| :: InitBuilds(sigs, st, GenDecode(st).stmts, GenDecode(st).inits[i]))
  }

  // ---- scopes and imports

  /** A variable of the decoder of a struct with n fields, which would hide the struct. */
  predicate DecVar(name: string, n: nat) {
    name == "b0" || exists i: nat :: 0 < i <= n && NumberedVar(name, Decimal(i))
  }

  predicate NumberedVar(name: string, digits: string) {
    name == "a" + digits || name == "b" + digits || name == "err" + digits
  }

  /** Imported packages, and predeclared names that generated code uses. */
  const RESERVED: set<string> := {"marshal", "marshalutil", "byte", "bool", "nil", "true", "false"}

  predicate IsFuncOf(name: string, pair: string) {
    name == pair + "Encode" || name == pair + "Decode"
  }

  /** The user supplies these pairs of functions, beside those that are generated. No name is
      declared twice, or hidden where it is used. */
  ghost predicate ScopesOk(pkg: Package, supplied: set<string>) {
    && supplied !! pkg.Keys
    && (forall n | n in pkg :: n !in RESERVED && !DecVar(n, |pkg[n].fields|))
    && (forall n, pair | n in pkg && pair in pkg.Keys + supplied :: !IsFuncOf(n, pair))
  }

  predicate CallsMarshal(codec: Codec) {
    codec.BoolCodec? || codec.IntCodec?
  }

  predicate EncCallsMarshalutil(codec: Codec) {
    codec.ByteCodec? || codec.SliceCodec?
  }

  /** The file imports marshal and marshalutil, and Go rejects an import that is not used. */
  ghost predicate ImportsUsed(pkg: Package)
    requires PackageSupported(pkg)
  {
    && (exists n, stmt :: n in pkg && stmt in GenEncode(pkg[n]) && CallsMarshal(stmt.codec))
    && ((exists n, stmt :: n in pkg && stmt in GenEncode(pkg[n]) && EncCallsMarshalutil(stmt.codec))
        || (exists n, stmt :: n in pkg && stmt in GenDecode(pkg[n]).stmts && !IsHandler(stmt.codec)))
  }

  /** The types that the supplied pairs are declared for, and those of the generated ones. */
  ghost predicate Declares(pkg: Package, supplied: set<string>, sigs: Sigs) {
    sigs.Keys == pkg.Keys + supplied && forall n | n in pkg :: sigs[n] == Local(n)
  }

  /** The generated file builds, beside some declarations of the supplied functions. */
  ghost predicate Builds(pkg: Package, supplied: set<string>)
    requires PackageSupported(pkg)
  {
    && ScopesOk(pkg, supplied) && ImportsUsed(pkg)
    && exists sigs :: Declares(pkg, supplied, sigs) && forall n | n in pkg :: StructBuilds(sigs, pkg[n])
  }

  // ---- the condition

  function CodecOf(f: Field): Codec
    requires GenFieldEnc(f).Some?
  {
    GenFieldEnc(f).value.codec
  }

  /** The field is neither blank nor constant; a basic type is not a defined one, byte slices have no
      defined type inside; any other type is that of a pair of functions there is. */
  predicate FieldOk(pkg: Package, supplied: set<string>, f: Field)
    requires GenFieldEnc(f).Some?
  {
    && f.name != "_" && !ConstField(f)
    && var ty, codec := Underlying(f.ty), CodecOf(f);
       if IsHandler(codec) then
         PairName(codec) in pkg.Keys + supplied && (PairName(codec) in pkg ==> ty == Local(PairName(codec)))
       else if codec.SliceCodec? then ty == ByteSlices(codec.depth)
       else !f.ty.DefinedTy?
  }

  ghost predicate InPackage(pkg: Package, f: Field) {
    exists n :: n in pkg && f in pkg[n].fields
  }

  ghost predicate FieldsOk(pkg: Package, supplied: set<string>)
    requires PackageSupported(pkg)
  {
    forall f | InPackage(pkg, f) && GenFieldEnc(f).Some? :: FieldOk(pkg, supplied, f)
  }

  /** Fields that use one pair of functions are of one type. */
  ghost predicate NoClash(pkg: Package) {
    forall f, f' | InPackage(pkg, f) && InPackage(pkg, f') && SamePair(f, f') :: Underlying(f.ty) == Underlying(f'.ty)
  }

  predicate SamePair(f: Field, f': Field) {
    && GenFieldEnc(f).Some? && GenFieldEnc(f').Some? && IsHandler(CodecOf(f)) && IsHandler(CodecOf(f'))
    && PairName(CodecOf(f)) == PairName(CodecOf(f'))
  }

  ghost predicate NotGeneric(pkg: Package) {
    forall n | n in pkg :: pkg[n].typeParams == []
  }

  /** What a user can check of the schema. */
  ghost predicate Buildable(pkg: Package, supplied: set<string>)
    requires PackageSupported(pkg)
  {
    && ScopesOk(pkg, supplied) && FieldsOk(pkg, supplied) && NoClash(pkg) && NotGeneric(pkg)
    && exists f :: InPackage(pkg, f) && (Underlying(f.ty).BoolTy? || Underlying(f.ty).Uint64Ty?)
  }

  // ---- it is exact

  /** As Go has it, fields have distinct names, except blank ones. */
  predicate GoNames(st: Struct) {
    forall i: nat, j: nat | i < j < |st.fields| :: st.fields[i].name != st.fields[j].name || st.fields[i].name == "_"
  }

  /** Statement i of both functions is about field i. */
  lemma StmtsOf(st: Struct, i: nat)
    requires Supported(st) && GoNames(st) && i < |st.fields|
    ensures var f := st.fields[i];
            && GenFieldEnc(f).Some? && |GenEncode(st)| == |GenDecode(st).stmts| == |GenDecode(st).inits| == |st.fields|
            && GenEncode(st)[i]
               == EncStmt(CodecOf(f), if ConstField(f) then LitArg(ConstOf(f).value) else FieldArg(f.name))
            && GenDecode(st).stmts[i] == DecStmt(CodecOf(f), ConstOf(f), i, i + 1)
            && GenDecode(st).inits[i] == Init(f.name, i + 1)
            && FieldTy(st, f.name) == (if f.name == "_" then None else Some(f.ty))
  {
    FieldGensAgree(st.fields[i], i);
    assert FieldIndex(st.fields, st.fields[i].name) <= i;
  }

  /** Go's rules for the statements of one field. */
  predicate FieldBuilds(sigs: Sigs, f: Field)
    requires GenFieldEnc(f).Some?
  {
    && f.name != "_" && !ConstField(f) && PairTy(sigs, CodecOf(f)).Some?
    && Assignable(f.ty, PairTy(sigs, CodecOf(f)).value) && Assignable(PairTy(sigs, CodecOf(f)).value, f.ty)
  }

  lemma FieldStmtsBuild(sigs: Sigs, st: Struct, i: nat)
    requires Supported(st) && GoNames(st) && i < |st.fields|
    ensures |GenEncode(st)| == |GenDecode(st).stmts| == |GenDecode(st).inits| == |st.fields|
    ensures GenFieldEnc(st.fields[i]).Some?
    ensures EncStmtBuilds(sigs, st, GenEncode(st)[i]) && DecStmtBuilds(sigs, GenDecode(st).stmts[i])
            && InitBuilds(sigs, st, GenDecode(st).stmts, GenDecode(st).inits[i])
            <==> FieldBuilds(sigs, st.fields[i])
  {
    hide GenEncode, GenDecode, FieldTy, Assignable, PairTy, GenFieldEnc, ConstOf, CodecOf;
    StmtsOf(st, i);
  }

  lemma StructBuildsIff(sigs: Sigs, st: Struct)
    requires Supported(st) && GoNames(st)
    ensures StructBuilds(sigs, st)
            <==> st.typeParams == [] && forall i: nat | i < |st.fields| :: FieldBuilds(sigs, st.fields[i])
  {
    hide EncStmtBuilds, DecStmtBuilds, InitBuilds, FieldBuilds, GenEncode, GenDecode;
    forall i: nat | i < |st.fields|
      ensures |GenEncode(st)| == |GenDecode(st).stmts| == |GenDecode(st).inits| == |st.fields|
      ensures EncStmtBuilds(sigs, st, GenEncode(st)[i]) && DecStmtBuilds(sigs, GenDecode(st).stmts[i])
              && InitBuilds(sigs, st, GenDecode(st).stmts, GenDecode(st).inits[i])
              <==> FieldBuilds(sigs, st.fields[i])
    {
      FieldStmtsBuild(sigs, st, i);
    }
    GenLengths(st);
  }

  lemma GenLengths(st: Struct)
    requires Supported(st)
    ensures |GenEncode(st)| == |GenDecode(st).stmts| == |GenDecode(st).inits| == |st.fields|
  {
  }

  /** Basic types have the basic codecs, and no others do. */
  lemma CodecKind(f: Field)
    requires GenFieldEnc(f).Some?
    ensures var ty, codec := Underlying(f.ty), CodecOf(f);
            && (IsBasic(ty) <==> codec.BoolCodec? || codec.ByteCodec? || codec.IntCodec?)
            && (IsBasic(ty) ==> forall sigs :: PairTy(sigs, codec) == Some(ty))
            && (codec.BoolCodec? <==> ty.BoolTy?) && (codec.IntCodec? <==> ty.Uint64Ty?)
            && (!IsBasic(ty) ==> !Named(ty))
            && (codec.SliceCodec? ==> codec.depth > 0)
  {
    if Underlying(f.ty).SliceTy? {
      SliceDepth(Underlying(f.ty).elem, 1);
    }
    NotDefined(f.ty);
  }

  lemma {:induction false} NotDefined(ty: Ty)
    ensures !Underlying(ty).DefinedTy? && Underlying(Underlying(ty)) == Underlying(ty)
  {
    if ty.DefinedTy? {
      NotDefined(ty.def);
    }
  }

  lemma {:induction false} SliceDepth(elem: Ty, depth: nat)
    requires GenSliceEnc(elem, depth).Some?
    ensures var codec := GenSliceEnc(elem, depth).value;
            (codec.SliceCodec? || codec.StructSliceCodec?) && codec.depth >= depth
    decreases elem
  {
    match elem
    case DefinedTy(_, _, def) => SliceDepth(def, depth);
    case SliceTy(elem2) => SliceDepth(elem2, depth + 1);
    case _ =>
  }

  /** Between a type without a name and any type, only the underlying types matter. */
  lemma AssignableUnnamed(ty: Ty, t: Ty)
    requires !Named(t)
    ensures Assignable(ty, t) <==> Underlying(ty) == t
    ensures Assignable(t, ty) <==> Underlying(ty) == t
  {
    assert Underlying(t) == t;
  }

  lemma AssignableUnderlying(ty: Ty, t: Ty)
    requires Assignable(ty, t)
    ensures Underlying(ty) == Underlying(t)
  {
  }

  /** A basic type fits itself only. */
  lemma AssignableBasic(ty: Ty, t: Ty)
    requires IsBasic(t)
    ensures Assignable(ty, t) <==> ty == t
  {
    assert Underlying(t) == t;
  }

  /** With the right declarations of the package's own functions, a field builds if it is as the
      condition has it. */
  lemma FieldBuildsIff(pkg: Package, supplied: set<string>, sigs: Sigs, f: Field)
    requires GenFieldEnc(f).Some? && Declares(pkg, supplied, sigs)
    ensures FieldBuilds(sigs, f)
            <==> FieldOk(pkg, supplied, f) && SigOf(sigs, f)
                 && (IsHandler(CodecOf(f)) ==> Fitting(f.ty, sigs[PairName(CodecOf(f))]))
  {
    hide GenFieldEnc, ConstField, Assignable, Underlying;
    var codec, ty := CodecOf(f), Underlying(f.ty);
    CodecKind(f);
    if IsBasic(ty) {
      BasicFits(f.ty, ty);
    } else if codec.SliceCodec? {
      AssignableUnnamed(f.ty, ByteSlices(codec.depth));
    } else {
      HandlerFits(pkg, supplied, sigs, f);
    }
  }

  predicate Fitting(ty: Ty, t: Ty) {
    Assignable(ty, t) && Assignable(t, ty)
  }

  lemma BasicFits(ty: Ty, t: Ty)
    requires IsBasic(t) && Underlying(ty) == t
    ensures Fitting(ty, t) <==> !ty.DefinedTy?
  {
    AssignableBasic(ty, t);
  }

  lemma HandlerFits(pkg: Package, supplied: set<string>, sigs: Sigs, f: Field)
    requires GenFieldEnc(f).Some? && Declares(pkg, supplied, sigs) && IsHandler(CodecOf(f))
    ensures FieldBuilds(sigs, f)
            <==> FieldOk(pkg, supplied, f) && SigOf(sigs, f) && Fitting(f.ty, sigs[PairName(CodecOf(f))])
  {
    hide GenFieldEnc, ConstField;
    CodecKind(f);
    var n := PairName(CodecOf(f));
    if n in sigs && Fitting(f.ty, sigs[n]) {
      AssignableUnderlying(f.ty, sigs[n]);
      if n in pkg {
        assert sigs[n] == Local(n);
      }
    }
  }

  /** What a supplied pair is declared for: the type of the fields that use it. */
  ghost function PairSig(pkg: Package, n: string): Ty {
    if n in pkg then Local(n)
    else if exists f :: UsesPair(pkg, f, n) then
      var f :| UsesPair(pkg, f, n);
      Underlying(f.ty)
    else OtherTy
  }

  ghost predicate UsesPair(pkg: Package, f: Field, n: string) {
    InPackage(pkg, f) && GenFieldEnc(f).Some? && IsHandler(CodecOf(f)) && PairName(CodecOf(f)) == n
  }

  ghost function PairSigs(pkg: Package, supplied: set<string>): Sigs {
    map n | n in pkg.Keys + supplied :: PairSig(pkg, n)
  }

  lemma PairSigFits(pkg: Package, supplied: set<string>, f: Field)
    requires PackageSupported(pkg) && FieldsOk(pkg, supplied) && NoClash(pkg)
    requires InPackage(pkg, f) && GenFieldEnc(f).Some? && IsHandler(CodecOf(f))
    ensures PairSig(pkg, PairName(CodecOf(f))) == Underlying(f.ty)
  {
    hide GenFieldEnc, CodecOf, PairName, ConstField;
    var n := PairName(CodecOf(f));
    assert UsesPair(pkg, f, n);
    CodecKind(f);
    if n in pkg {
      assert FieldOk(pkg, supplied, f);
    } else {
      var f' :| UsesPair(pkg, f', n) && PairSig(pkg, n) == Underlying(f'.ty);
      UsersSamePair(pkg, f, f', n);
    }
  }

  lemma UsersSamePair(pkg: Package, f: Field, f': Field, n: string)
    requires UsesPair(pkg, f, n) && UsesPair(pkg, f', n)
    ensures SamePair(f, f')
  {
  }

  lemma NeededSigs(pkg: Package, supplied: set<string>)
    requires PackageSupported(pkg) && FieldsOk(pkg, supplied) && NoClash(pkg)
    ensures Declares(pkg, supplied, PairSigs(pkg, supplied))
    ensures forall f | InPackage(pkg, f) && GenFieldEnc(f).Some? :: FieldBuilds(PairSigs(pkg, supplied), f)
  {
    hide GenFieldEnc, CodecOf, PairName, FieldBuilds, PairSig;
    var sigs := PairSigs(pkg, supplied);
    assert Declares(pkg, supplied, sigs) by {
      assert forall n | n in pkg :: PairSig(pkg, n) == Local(n) by {
        LocalSigs(pkg);
      }
    }
    forall f | InPackage(pkg, f) && GenFieldEnc(f).Some?
      ensures FieldBuilds(sigs, f)
    {
      assert FieldOk(pkg, supplied, f);
      FieldBuildsIff(pkg, supplied, sigs, f);
      CodecKind(f);
      if IsHandler(CodecOf(f)) {
        PairSigFits(pkg, supplied, f);
        AssignableUnnamed(f.ty, Underlying(f.ty));
        NotDefined(f.ty);
      }
    }
  }

  lemma LocalSigs(pkg: Package)
    ensures forall n | n in pkg :: PairSig(pkg, n) == Local(n)
  {
  }

  lemma SupportedField(pkg: Package, f: Field)
    requires PackageSupported(pkg) && InPackage(pkg, f)
    ensures GenFieldEnc(f).Some?
  {
    var n :| n in pkg && f in pkg[n].fields;
    var i: nat :| i < |pkg[n].fields| && pkg[n].fields[i] == f;
    assert Supported(pkg[n]);
  }

  /** All structs build if and only if all fields do. */
  lemma PackageBuildsIff(pkg: Package, sigs: Sigs)
    requires PackageSupported(pkg) && forall n | n in pkg :: GoNames(pkg[n])
    ensures (forall n | n in pkg :: StructBuilds(sigs, pkg[n]))
            <==> NotGeneric(pkg) && (forall f | InPackage(pkg, f) && GenFieldEnc(f).Some? :: FieldBuilds(sigs, f))
  {
    hide FieldBuilds, StructBuilds, GenFieldEnc, GoNames;
    forall n | n in pkg
      ensures StructBuilds(sigs, pkg[n])
              <==> pkg[n].typeParams == [] && forall i: nat | i < |pkg[n].fields| :: FieldBuilds(sigs, pkg[n].fields[i])
    {
      StructBuildsIff(sigs, pkg[n]);
    }
    if forall f | InPackage(pkg, f) && GenFieldEnc(f).Some? :: FieldBuilds(sigs, f) {
      forall n, i: nat | n in pkg && i < |pkg[n].fields|
        ensures FieldBuilds(sigs, pkg[n].fields[i])
      {
        assert InPackage(pkg, pkg[n].fields[i]);
      }
    }
    if forall n | n in pkg :: StructBuilds(sigs, pkg[n]) {
      forall f | InPackage(pkg, f) && GenFieldEnc(f).Some?
        ensures FieldBuilds(sigs, f)
      {
        var n :| n in pkg && f in pkg[n].fields;
      }
    }
  }

  lemma ImportsUsedIff(pkg: Package)
    requires PackageSupported(pkg)
    ensures ImportsUsed(pkg)
            <==> exists f :: InPackage(pkg, f) && (Underlying(f.ty).BoolTy? || Underlying(f.ty).Uint64Ty?)
  {
    if ImportsUsed(pkg) {
      var n, stmt :| n in pkg && stmt in GenEncode(pkg[n]) && CallsMarshal(stmt.codec);
      var i: nat :| i < |pkg[n].fields| && GenEncode(pkg[n])[i] == stmt;
      CodecKind(pkg[n].fields[i]);
      assert InPackage(pkg, pkg[n].fields[i]);
    }
    if exists f :: InPackage(pkg, f) && (Underlying(f.ty).BoolTy? || Underlying(f.ty).Uint64Ty?) {
      var f :| InPackage(pkg, f) && (Underlying(f.ty).BoolTy? || Underlying(f.ty).Uint64Ty?);
      var n :| n in pkg && f in pkg[n].fields;
      var i: nat :| i < |pkg[n].fields| && pkg[n].fields[i] == f;
      MarshalUsed(pkg, n, i);
    }
  }

  lemma MarshalUsed(pkg: Package, n: string, i: nat)
    requires PackageSupported(pkg) && n in pkg && i < |pkg[n].fields|
    requires Underlying(pkg[n].fields[i].ty).BoolTy? || Underlying(pkg[n].fields[i].ty).Uint64Ty?
    ensures ImportsUsed(pkg)
  {
    hide GenFieldEnc, GenFieldDec;
    var f := pkg[n].fields[i];
    assert Supported(pkg[n]);
    FieldGensAgree(f, i);
    CodecKind(f);
    var enc, dec := GenEncode(pkg[n])[i], GenDecode(pkg[n]).stmts[i];
    assert enc in GenEncode(pkg[n]) && CallsMarshal(enc.codec);
    assert dec in GenDecode(pkg[n]).stmts && !IsHandler(dec.codec);
  }

  /** The generated file builds, beside some declarations of the functions that the user supplies, if and
      only if: no struct has type parameters; names are declared once and not hidden; every field is
      neither blank nor constant; no basic field is of a defined type, and no byte slices have one inside;
      every other field's functions are generated for its type or supplied; fields that use one pair of
      functions are of one type; and some field is a bool or a uint64. */
  lemma BuildsIff(pkg: Package, supplied: set<string>)
    requires PackageSupported(pkg) && forall n | n in pkg :: GoNames(pkg[n])
    ensures Builds(pkg, supplied) <==> Buildable(pkg, supplied)
  {
    hide ScopesOk, StructBuilds, GenFieldEnc, GoNames, FieldOk, FieldBuilds, SamePair, PairSigs;
    hide ImportsUsed;
    ImportsUsedIff(pkg);
    if Builds(pkg, supplied) {
      var sigs :| Declares(pkg, supplied, sigs) && forall n | n in pkg :: StructBuilds(sigs, pkg[n]);
      PackageBuildsIff(pkg, sigs);
      BuildsNeeds(pkg, supplied, sigs);
    }
    if Buildable(pkg, supplied) {
      NeededSigs(pkg, supplied);
      PackageBuildsIff(pkg, PairSigs(pkg, supplied));
    }
  }

  lemma BuildsNeeds(pkg: Package, supplied: set<string>, sigs: Sigs)
    requires PackageSupported(pkg) && Declares(pkg, supplied, sigs)
    requires forall f | InPackage(pkg, f) && GenFieldEnc(f).Some? :: FieldBuilds(sigs, f)
    ensures FieldsOk(pkg, supplied) && NoClash(pkg)
  {
    hide GenFieldEnc, FieldOk, FieldBuilds, Declares, InPackage, Fitting, Underlying, CodecOf, PairName;
    forall f | InPackage(pkg, f) && GenFieldEnc(f).Some?
      ensures FieldOk(pkg, supplied, f) && SigOf(sigs, f)
    {
      FieldBuildsIff(pkg, supplied, sigs, f);
    }
    forall f, f' | InPackage(pkg, f) && InPackage(pkg, f') && SamePair(f, f')
      ensures Underlying(f.ty) == Underlying(f'.ty)
    {
      SamePairFields(f, f');
      assert SigOf(sigs, f) && SigOf(sigs, f');
    }
  }

  predicate SigOf(sigs: Sigs, f: Field)
    requires GenFieldEnc(f).Some?
  {
    IsHandler(CodecOf(f)) ==>
      PairName(CodecOf(f)) in sigs && Underlying(sigs[PairName(CodecOf(f))]) == Underlying(f.ty)
  }

  // ---- so which packages round-trip

  lemma {:induction false} NoConstMeets(pkg: Package, v: Val, codec: Codec)
    requires PackageSupported(pkg) && Fits(pkg, v, codec) && forall f | InPackage(pkg, f) :: !ConstField(f)
    ensures MeetsConsts(pkg, v, codec)
    decreases v
  {
    if Compiled(pkg, codec) {
      forall i: nat | i < |v.fields|
        ensures !ConstField(pkg[codec.name].fields[i])
        ensures MeetsConsts(pkg, v.fields[i], GenFieldEnc(pkg[codec.name].fields[i]).value.codec)
      {
        assert InPackage(pkg, pkg[codec.name].fields[i]);
        FitsField(pkg, codec.name, v, i);
        NoConstMeets(pkg, v.fields[i], GenFieldEnc(pkg[codec.name].fields[i]).value.codec);
      }
    }
  }

  lemma BuildableUsable(pkg: Package, supplied: set<string>)
    requires PackageSupported(pkg) && Buildable(pkg, supplied) && forall n | n in pkg :: GoNames(pkg[n])
    ensures forall f | InPackage(pkg, f) :: !ConstField(f)
    ensures Usable(pkg)
  {
    hide GenFieldEnc, CodecOf, PairName, ScopesOk, NoClash;
    forall f | InPackage(pkg, f)
      ensures !ConstField(f) && f.name != "_"
    {
      SupportedField(pkg, f);
      assert FieldOk(pkg, supplied, f);
    }
    forall n, i: nat | n in pkg && i < |pkg[n].fields|
      ensures !ConstField(pkg[n].fields[i]) && pkg[n].fields[i].name != "_"
    {
      assert InPackage(pkg, pkg[n].fields[i]);
    }
  }

  /** Running a decoder of the package, if the generated file builds. */
  datatype Outcome = NotBuilt | Ran(result: Dec<Val>)

  ghost function RunPackage(pkg: Package, supplied: set<string>, h: Handlers, name: string, b: Bytes,
                            fuel: nat): Outcome
    requires PackageSupported(pkg)
  {
    if Builds(pkg, supplied) then Ran(Decode(pkg, h, name, b, fuel)) else NotBuilt
  }

  /** For every package that the compiler accepts and every value of a struct of it, nil pointers
      included: what the generated encoder writes, followed by anything, is read back by the generated
      decoder if and only if the package meets the condition and no pointer in the value is nil. */
  lemma RoundTripIffBuildable(pkg: Package, supplied: set<string>, h: Handlers, name: string, v: Val, tail: Bytes,
                              fuel: nat)
    requires PackageSupported(pkg) && (forall n | n in pkg :: GoNames(pkg[n])) && HandlersInverse(pkg, h)
    requires name in pkg && Typed(pkg, v, StructCodec(name)) && Height(v) <= fuel + 1
    ensures (exists b :: Encode(pkg, h, name, v, []) == Some(b)
                         && RunPackage(pkg, supplied, h, name, b + tail, fuel) == Ran(Ok(v, tail)))
            <==> Buildable(pkg, supplied) && NoNil(v)
  {
    hide HandlersInverse, Encode, Decode, Builds, Buildable, Usable, MeetsConsts, WithConsts, Fits, Height, ConstField;
    hide InPackage, Typed, NoNil;
    BuildsIff(pkg, supplied);
    FitsIff(pkg, v, StructCodec(name));
    if Buildable(pkg, supplied) {
      BuildableUsable(pkg, supplied);
      if NoNil(v) {
        NoConstMeets(pkg, v, StructCodec(name));
        RoundTrip(pkg, h, name, v, tail, fuel);
      } else {
        forall b | Decode(pkg, h, name, b, fuel) == Ok(v, tail)
          ensures false
        {
          DecodedFits(pkg, h, name, v, b, tail, fuel);
        }
      }
    }
  }

  // ---- separated names do not clash

  /** No defined type, and no struct of another package, inside the type. */
  predicate Plain(ty: Ty) {
    Erase(ty) == ty
  }

  function Nested(ty: Ty, depth: nat): Ty {
    if depth == 0 then ty else SliceTy(Nested(ty, depth - 1))
  }

  lemma {:induction false} StructSliceTy(elem: Ty, depth: nat)
    requires Plain(elem) && GenSliceEnc(elem, depth).Some? && GenSliceEnc(elem, depth).value.StructSliceCodec?
    ensures var codec := GenSliceEnc(elem, depth).value;
            codec.depth >= depth && elem == Nested(Local(codec.name), codec.depth - depth)
    decreases elem
  {
    if elem.SliceTy? {
      StructSliceTy(elem.elem, depth + 1);
    } else if elem.DefinedTy? {
      ErasedNotDefined(elem);
    }
  }

  lemma {:induction false} ErasedNotDefined(ty: Ty)
    ensures !Erase(ty).DefinedTy?
  {
    if ty.DefinedTy? {
      ErasedNotDefined(ty.def);
    }
  }

  /** The type that a pair of functions is for, from its codec alone. */
  lemma HandlerTy(f: Field)
    requires GenFieldEnc(f).Some? && IsHandler(CodecOf(f)) && Plain(Underlying(f.ty))
    ensures match CodecOf(f)
            case StructCodec(n) => Underlying(f.ty) == Local(n)
            case StructSliceCodec(n, depth) => depth > 0 && Underlying(f.ty) == SliceTy(Nested(Local(n), depth - 1))
            case MapCodec(canon) => Underlying(f.ty).MapTy? && CanonTyName(Underlying(f.ty)) == Some(canon)
            case _ => false
  {
    var ty := Underlying(f.ty);
    NotDefined(f.ty);
    if ty.SliceTy? {
      SliceDepth(ty.elem, 1);
      StructSliceTy(ty.elem, 1);
    }
  }

  /** The names that a type of a pair of functions is made of. */
  predicate PairOver(f: Field, names: Names)
    requires GenFieldEnc(f).Some?
  {
    IsHandler(CodecOf(f)) ==>
      Plain(Underlying(f.ty)) && (match CodecOf(f)
                                  case StructCodec(n) => n in names.structs
                                  case StructSliceCodec(n, _) => n in names.structs
                                  case _ => Over(Underlying(f.ty), names))
  }

  /** The first token of the name of a pair of functions, and the rest. */
  function PairHead(codec: Codec): string
    requires IsHandler(codec)
  {
    if codec.MapCodec? then "Map" else codec.name
  }

  function PairRest(codec: Codec): string
    requires IsHandler(codec) && (codec.MapCodec? ==> |codec.canon| >= 3)
  {
    match codec
    case StructCodec(_) => []
    case StructSliceCodec(_, depth) => "Slice" + Decimal(depth) + "D"
    case MapCodec(canon) => canon[3..]
  }

  lemma PairParts(f: Field, names: Names)
    requires Separated(names) && GenFieldEnc(f).Some? && IsHandler(CodecOf(f)) && PairOver(f, names)
    ensures var codec := CodecOf(f);
            && (codec.MapCodec? ==> |codec.canon| >= 3)
            && PairHead(codec) in Tokens(names) && Cut(PairRest(codec))
            && PairName(codec) == PairHead(codec) + PairRest(codec)
            && (codec.MapCodec? ==> PairRest(codec) != [] && Over(Underlying(f.ty), names))
  {
    hide GenFieldEnc, Separated, Decimal;
    HandlerTy(f);
    var codec, ty := CodecOf(f), Underlying(f.ty);
    match codec
    case StructCodec(n) => assert n + [] == n;
    case StructSliceCodec(n, depth) =>
      assert n + "Slice" + Decimal(depth) + "D" == n + ("Slice" + Decimal(depth) + "D");
    case MapCodec(canon) =>
      NameStarts(ty, names);
      NameStarts(ty.key, names);
      MapName(ty.key, ty.elem, names);
      assert ("Map" + (NameOf(ty.key, names) + NameOf(ty.elem, names)))[3..]
             == NameOf(ty.key, names) + NameOf(ty.elem, names);
  }

  /** Over separated names without defined types inside, one name of functions means one type. */
  lemma SamePairSameTy(f: Field, f': Field, names: Names)
    requires Separated(names) && SamePair(f, f') && PairOver(f, names) && PairOver(f', names)
    ensures Underlying(f.ty) == Underlying(f'.ty)
  {
    hide GenFieldEnc, CanonTyName, Separated, Decimal, Nested, Tokens;
    var codec, codec' := CodecOf(f), CodecOf(f');
    PairParts(f, names);
    PairParts(f', names);
    HandlerTy(f);
    HandlerTy(f');
    TokenMatch(names, PairHead(codec), PairHead(codec'), PairRest(codec), PairRest(codec'));
    MapNotStruct(names);
    if codec.MapCodec? {
      SameNameIff(Underlying(f.ty), Underlying(f'.ty), names);
    } else if codec.StructSliceCodec? && codec'.StructSliceCodec? {
      SameDepth(codec.depth, codec'.depth);
    }
  }

  lemma MapNotStruct(names: Names)
    requires Separated(names)
    ensures "Map" !in names.structs
  {
  }

  lemma SameDepth(d: nat, d': nat)
    requires "Slice" + Decimal(d) + "D" == "Slice" + Decimal(d') + "D"
    ensures d == d'
  {
    var s, s' := "Slice" + Decimal(d) + "D", "Slice" + Decimal(d') + "D";
    assert Decimal(d) == s[5..|s| - 1] == s'[5..|s'| - 1] == Decimal(d');
    DecimalInjective(d, d');
  }

  lemma {:induction false} DecimalInjective(d: nat, d': nat)
    requires Decimal(d) == Decimal(d')
    ensures d == d'
  {
    var s, s' := Decimal(d), Decimal(d');
    assert s[|s| - 1] == "0123456789"[d % 10] && s'[|s'| - 1] == "0123456789"[d' % 10];
    DigitInjective(d % 10, d' % 10);
    if d >= 10 && d' >= 10 {
      assert s[..|s| - 1] == Decimal(d / 10) && s'[..|s'| - 1] == Decimal(d' / 10);
      DecimalInjective(d / 10, d' / 10);
    }
  }

  lemma DigitInjective(d: nat, d': nat)
    requires d < 10 && d' < 10 && "0123456789"[d] == "0123456789"[d']
    ensures d == d'
  {
  }

  /** So with separated names the clash clause of the condition holds. */
  lemma SeparatedNoClash(pkg: Package, names: Names)
    requires Separated(names)
    requires forall f | InPackage(pkg, f) && GenFieldEnc(f).Some? :: PairOver(f, names)
    ensures NoClash(pkg)
  {
    hide GenFieldEnc, PairOver, Separated, SamePair, InPackage;
    forall f, f' | InPackage(pkg, f) && InPackage(pkg, f') && SamePair(f, f')
      ensures Underlying(f.ty) == Underlying(f'.ty)
    {
      SamePairFields(f, f');
      SamePairSameTy(f, f', names);
    }
  }

  lemma SamePairFields(f: Field, f': Field)
    requires SamePair(f, f')
    ensures GenFieldEnc(f).Some? && GenFieldEnc(f').Some?
    ensures IsHandler(CodecOf(f)) && IsHandler(CodecOf(f')) && PairName(CodecOf(f)) == PairName(CodecOf(f'))
  {
  }
}
