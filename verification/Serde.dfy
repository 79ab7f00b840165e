/** serde/compiler.go: the statements it generates for a package of structs, a semantics for
    them, and that the two generated functions of a struct are inverse. */
module Serde {
  import opened Bytes
  import opened KtTypes
  import opened Marshal

  // ---- schemas

  /** A named struct: of the package itself if the path is empty; else the path says where it is from,
      and its type arguments if it has any. */
  datatype StructRef = StructRef(path: string, name: string)

  /** Types of fields, with aliases resolved. Defined types have another type as their underlying
      type; OtherTy is whatever the compiler panics on. */
  datatype Ty =
    | BoolTy | ByteTy | Uint64Ty | OtherBasic(name: string)
    | SliceTy(elem: Ty)
    | PointerTy(struct: StructRef)
    | MapTy(key: Ty, elem: Ty)
    | DefinedTy(path: string, name: string, def: Ty)
    | OtherTy

  function Underlying(ty: Ty): Ty {
    if ty.DefinedTy? then Underlying(ty.def) else ty
  }

  function Local(name: string): Ty {
    PointerTy(StructRef("", name))
  }

  /** A field, and the constant of its invariant comment, if it has one. */
  datatype Field = Field(name: string, ty: Ty, cst: Option<Val>)

  /** The compiler ignores type parameters. */
  datatype Struct = Struct(name: string, fields: seq<Field>, typeParams: seq<string> := [])

  type Package = map<string, Struct>

  // ---- generated code

  /** Which pair of functions a call is to: WriteBool and ReadBool, and so on; the pair of a struct, of
      slices of a struct, or of a map. The compiler generates those of the package's structs; others
      are handlers that the user supplies. */
  datatype Codec =
    | BoolCodec | ByteCodec | IntCodec
    | SliceCodec(depth: nat)
    | StructCodec(name: string)
    | StructSliceCodec(name: string, depth: nat)
    | MapCodec(canon: string)

  datatype Arg = FieldArg(name: string) | LitArg(lit: Val)

  /** b = Write...(b, arg) */
  datatype EncStmt = EncStmt(codec: Codec, arg: Arg)

  /** a_n, b_n, err_n := Read...(b_m), or ReadConst...(b_m, lit); if err_n { return nil, nil, true } */
  datatype DecStmt = DecStmt(codec: Codec, lit: Option<Val>, oldB: nat, newB: nat)

  /** The statements, then return &T{name: a_n, ...}, b_m, false. */
  datatype DecFunc = DecFunc(stmts: seq<DecStmt>, inits: seq<Init>, retB: nat)
  datatype Init = Init(key: string, var_: nat)

  /** A panic of the compiler is None. */
  function GenSliceEnc(elem: Ty, depth: nat): Option<Codec>
    decreases elem
  {
    if depth > 3 then None
    else
      match elem
      case DefinedTy(_, _, def) => GenSliceEnc(def, depth)
      case SliceTy(elem2) => GenSliceEnc(elem2, depth + 1)
      case ByteTy => Some(SliceCodec(depth))
      case PointerTy(st) => Some(StructSliceCodec(st.name, depth))
      case _ => None
  }

  function GenSliceDec(elem: Ty, depth: nat): Option<Codec>
    decreases elem
  {
    if depth > 3 then None
    else
      match elem
      case DefinedTy(_, _, def) => GenSliceDec(def, depth)
      case SliceTy(elem2) => GenSliceDec(elem2, depth + 1)
      case ByteTy => Some(SliceCodec(depth))
      case PointerTy(st) => Some(StructSliceCodec(st.name, depth))
      case _ => None
  }

  /** The name by which the handler of a map type is called. */
  function CanonTyName(ty: Ty): Option<string> {
    match ty
    case BoolTy => Some("bool")
    case ByteTy => Some("byte")
    case Uint64Ty => Some("uint64")
    case OtherBasic(name) => Some(name)
    case SliceTy(elem) => (match CanonTyName(elem) case None => None case Some(n) => Some("Sl" + n))
    case MapTy(key, elem) =>
      (match (CanonTyName(key), CanonTyName(elem))
       case (Some(k), Some(e)) => Some("Map" + k + e)
       case _ => None)
    case PointerTy(st) => Some(st.name)
    case DefinedTy(_, _, def) => CanonTyName(def)
    case OtherTy => None
  }

  function BasicCodec(ty: Ty): Option<Codec> {
    match ty
    case BoolTy => Some(BoolCodec)
    case ByteTy => Some(ByteCodec)
    case Uint64Ty => Some(IntCodec)
    case _ => None
  }

  predicate IsBasic(ty: Ty) {
    ty.BoolTy? || ty.ByteTy? || ty.Uint64Ty? || ty.OtherBasic?
  }

  function GenFieldEnc(f: Field): Option<EncStmt> {
    var ty := Underlying(f.ty);
    if IsBasic(ty) then
      match BasicCodec(ty)
      case None => None
      case Some(codec) => Some(EncStmt(codec, if f.cst.Some? then LitArg(f.cst.value) else FieldArg(f.name)))
    else
      var codec := match ty
        case SliceTy(elem) => GenSliceEnc(elem, 1)
        case PointerTy(st) => Some(StructCodec(st.name))
        case MapTy(_, _) => (match CanonTyName(ty) case None => None case Some(n) => Some(MapCodec(n)))
        case _ => None;
      match codec
      case None => None
      case Some(codec) => Some(EncStmt(codec, FieldArg(f.name)))
  }

  /** For the field with number fieldNum: reads b_fieldNum, defines a, b, err of the next number. */
  function GenFieldDec(f: Field, fieldNum: nat): Option<DecStmt> {
    var ty := Underlying(f.ty);
    if IsBasic(ty) then
      match BasicCodec(ty)
      case None => None
      case Some(codec) => Some(DecStmt(codec, f.cst, fieldNum, fieldNum + 1))
    else
      var codec := match ty
        case SliceTy(elem) => GenSliceDec(elem, 1)
        case PointerTy(st) => Some(StructCodec(st.name))
        case MapTy(_, _) => (match CanonTyName(ty) case None => None case Some(n) => Some(MapCodec(n)))
        case _ => None;
      match codec
      case None => None
      case Some(codec) => Some(DecStmt(codec, None, fieldNum, fieldNum + 1))
  }

  /** The compiler panics on none of the fields. */
  predicate Supported(st: Struct) {
    forall i: nat | i < |st.fields| :: GenFieldEnc(st.fields[i]).Some?
  }

  predicate PackageSupported(pkg: Package) {
    forall n | n in pkg :: Supported(pkg[n])
  }

  function GenEncode(st: Struct): seq<EncStmt>
    requires Supported(st)
  {
    seq(|st.fields|, i requires 0 <= i < |st.fields| => GenFieldEnc(st.fields[i]).value)
  }

  lemma {:induction false} SliceGensAgree(elem: Ty, depth: nat)
    ensures GenSliceEnc(elem, depth) == GenSliceDec(elem, depth)
    decreases elem
  {
    if depth <= 3 && elem.SliceTy? {
      SliceGensAgree(elem.elem, depth + 1);
    } else if depth <= 3 && elem.DefinedTy? {
      SliceGensAgree(elem.def, depth);
    }
  }

  /** Encoder and decoder call the two functions of one pair. */
  lemma FieldGensAgree(f: Field, n: nat)
    ensures GenFieldEnc(f).Some? <==> GenFieldDec(f, n).Some?
    ensures GenFieldEnc(f).Some? ==> GenFieldEnc(f).value.codec == GenFieldDec(f, n).value.codec
  {
    if Underlying(f.ty).SliceTy? {
      SliceGensAgree(Underlying(f.ty).elem, 1);
    }
  }

  /** The methods that generate the two functions append one statement per field. */
  function GenDecode(st: Struct): DecFunc
    requires Supported(st)
  {
    DecFunc(seq(|st.fields|, i requires 0 <= i < |st.fields| =>
              FieldGensAgree(st.fields[i], i); GenFieldDec(st.fields[i], i).value),
            seq(|st.fields|, i requires 0 <= i < |st.fields| => Init(st.fields[i].name, i + 1)),
            |st.fields|)
  }

  /** The constant that encoder and decoder use for a field. */
  function ConstOf(f: Field): Option<Val> {
    if IsBasic(Underlying(f.ty)) then f.cst else None
  }

  predicate ConstField(f: Field) {
    ConstOf(f).Some?
  }

  // ---- values

  /** Values that a handler is for: those of kt/serde_misc.go, and of other maps and slices. */
  datatype HandledVal =
    | MapOfBytes(m: Updates)
    | MembHides(s: seq<MembHideMsg>)
    | OtherHandled(id: nat)

  datatype Val =
    | BoolVal(b: bool) | ByteVal(x: Byte) | IntVal(n: U64)
    | Slice1(s1: Slice) | Slice2(s2: Slices2D) | Slice3(s3: Slices3D)
    | StructVal(fields: seq<Val>) | NilVal
    | Handled(h: HandledVal)

  const MAP_CODEC: Codec := MapCodec("MapstringSlbyte")
  const MEMB_HIDE_CODEC: Codec := StructSliceCodec("MembHide", 1)

  predicate Takes(codec: Codec, x: HandledVal) {
    if codec == MAP_CODEC then x.MapOfBytes?
    else if codec == MEMB_HIDE_CODEC then x.MembHides? && |x.s| < U64_BOUND
    else x.OtherHandled?
  }

  /** Handlers: the encoder appends bytes(...), which may be different bytes for the same value
      each time, as when it ranges over a map: it is an arbitrary function of the buffer so far.
      The decoder is read(...). */
  datatype Handlers = Handlers(bytes: (Codec, HandledVal, Bytes) -> Bytes, read: (Codec, Bytes) -> Dec<Val>)

  /** A field of the package is of this codec. */
  ghost predicate Calls(pkg: Package, codec: Codec) {
    exists n, f :: n in pkg && f in pkg[n].fields && GenFieldEnc(f).Some? && GenFieldEnc(f).value.codec == codec
  }

  ghost predicate HandlerInverse(h: Handlers, codec: Codec) {
    forall x, b, tail | Takes(codec, x) :: h.read(codec, h.bytes(codec, x, b) + tail) == Ok(Handled(x), tail)
  }

  /** Every handler that the package calls decodes what it encodes. */
  ghost predicate HandlersInverse(pkg: Package, h: Handlers) {
    forall codec | Calls(pkg, codec) && !Compiled(pkg, codec) && IsHandler(codec) :: HandlerInverse(h, codec)
  }

  predicate IsHandler(codec: Codec) {
    codec.StructCodec? || codec.StructSliceCodec? || codec.MapCodec?
  }

  /** The pair is one that the compiler generates. */
  predicate Compiled(pkg: Package, codec: Codec) {
    codec.StructCodec? && codec.name in pkg
  }

  /** v is a value of the type that the codec is for; a pointer to a struct may be nil. */
  predicate Typed(pkg: Package, v: Val, codec: Codec)
    decreases v
  {
    if !Compiled(pkg, codec) then Fits(pkg, v, codec)
    else
      Supported(pkg[codec.name])
      && (v.NilVal?
          || (v.StructVal? && |v.fields| == |pkg[codec.name].fields|
              && forall i: nat | i < |v.fields| ::
                   Typed(pkg, v.fields[i], GenFieldEnc(pkg[codec.name].fields[i]).value.codec)))
  }

  /** No pointer in the value is nil. */
  predicate NoNil(v: Val) {
    match v
    case NilVal => false
    case StructVal(fields) => forall i: nat | i < |fields| :: NoNil(fields[i])
    case _ => true
  }

  /** v is a value of the type that the codec is for, without nil pointers. */
  predicate Fits(pkg: Package, v: Val, codec: Codec)
    decreases v
  {
    match codec
    case BoolCodec => v.BoolVal?
    case ByteCodec => v.ByteVal?
    case IntCodec => v.IntVal?
    case SliceCodec(depth) =>
      if depth == 1 then v.Slice1? else if depth == 2 then v.Slice2? else depth == 3 && v.Slice3?
    case StructCodec(name) =>
      if name !in pkg then v.Handled? && Takes(codec, v.h)
      else
        Supported(pkg[name]) && v.StructVal? && |v.fields| == |pkg[name].fields|
        && forall i: nat | i < |v.fields| :: Fits(pkg, v.fields[i], GenFieldEnc(pkg[name].fields[i]).value.codec)
    case StructSliceCodec(_, _) => v.Handled? && Takes(codec, v.h)
    case MapCodec(_) => v.Handled? && Takes(codec, v.h)
  }

  // ---- running encoders

  predicate NamesDistinct(st: Struct) {
    forall i: nat, j: nat | i < j < |st.fields| :: st.fields[i].name != st.fields[j].name
  }

  function FieldIndex(fields: seq<Field>, name: string): (i: nat)
    ensures i <= |fields| && (i < |fields| ==> fields[i].name == name)
    ensures forall j: nat | j < i :: fields[j].name != name
  {
    if fields == [] then 0
    else
      var n := |fields| - 1;
      var i := FieldIndex(fields[..n], name);
      if i < n then i else if fields[n].name == name then n else n + 1
  }

  /** Calls of marshal and marshalutil, and of handlers; none if the value does not fit. */
  function WriteFlat(h: Handlers, b: Bytes, codec: Codec, v: Val): (r: Option<Bytes>)
    ensures r.Some? ==> b <= r.value
  {
    match (codec, v)
    case (BoolCodec, BoolVal(x)) => Some(WriteBool(b, x))
    case (ByteCodec, ByteVal(x)) => Some(WriteByte(b, x))
    case (IntCodec, IntVal(n)) => Some(WriteInt(b, n))
    case (SliceCodec(1), Slice1(x)) => Some(WriteSlice1D(b, x))
    case (SliceCodec(2), Slice2(x)) => Some(b + Slice2DBytes(x))
    case (SliceCodec(3), Slice3(x)) => Some(b + Slice3DBytes(x))
    case (StructCodec(_), Handled(x)) => Some(b + h.bytes(codec, x, b))
    case (StructSliceCodec(_, _), Handled(x)) => Some(b + h.bytes(codec, x, b))
    case (MapCodec(_), Handled(x)) => Some(b + h.bytes(codec, x, b))
    case _ => None
  }

  /** The generated encoder of a struct: its first n statements. */
  function RunEnc(pkg: Package, h: Handlers, name: string, v: Val, b0: Bytes, n: nat): Option<Bytes>
    requires name in pkg && Supported(pkg[name]) && IsPointer(pkg[name], v)
    requires n <= |pkg[name].fields|
    decreases v, n
  {
    if n == 0 then Some(b0)
    else
      match RunEnc(pkg, h, name, v, b0, n - 1)
      case None => None
      case Some(b) => RunEncStmt(pkg, h, name, v, b, GenEncode(pkg[name])[n - 1])
  }

  /** A pointer to a value of the struct, or nil. */
  predicate IsPointer(st: Struct, v: Val) {
    v.NilVal? || (v.StructVal? && |v.fields| == |st.fields|)
  }

  /** The argument o.f follows the pointer: a panic if it is nil. */
  function RunEncStmt(pkg: Package, h: Handlers, name: string, v: Val, b: Bytes, stmt: EncStmt): Option<Bytes>
    requires name in pkg && IsPointer(pkg[name], v)
    decreases v, 0
  {
    match stmt.arg
    case LitArg(lit) => WriteFlat(h, b, stmt.codec, lit)
    case FieldArg(f) =>
      var i := FieldIndex(pkg[name].fields, f);
      if v.NilVal? || i == |v.fields| then None
      else if Compiled(pkg, stmt.codec) then Encode(pkg, h, stmt.codec.name, v.fields[i], b)
      else WriteFlat(h, b, stmt.codec, v.fields[i])
  }

  /** TEncode(b0, o). */
  function Encode(pkg: Package, h: Handlers, name: string, v: Val, b0: Bytes): Option<Bytes>
    decreases v
  {
    if name in pkg && Supported(pkg[name]) && IsPointer(pkg[name], v)
    then RunEnc(pkg, h, name, v, b0, |pkg[name].fields|)
    else None
  }

  // ---- running decoders

  /** Calls of the readers. */
  function ReadFlat(h: Handlers, codec: Codec, b: Bytes): Dec<Val> {
    match codec
    case BoolCodec => (match ReadBool(b) case Bad => Bad case Ok(x, r) => Ok(BoolVal(x), r))
    case ByteCodec => (match ReadByte(b) case Bad => Bad case Ok(x, r) => Ok(ByteVal(x), r))
    case IntCodec => (match ReadInt(b) case Bad => Bad case Ok(x, r) => Ok(IntVal(x), r))
    case SliceCodec(1) => (match ReadSlice1D(b) case Bad => Bad case Ok(x, r) => Ok(Slice1(x), r))
    case SliceCodec(2) => (match ReadSlice2D(b) case Bad => Bad case Ok(x, r) => Ok(Slice2(x), r))
    case SliceCodec(3) => (match ReadSlice3D(b) case Bad => Bad case Ok(x, r) => Ok(Slice3(x), r))
    case SliceCodec(_) => Bad
    case StructCodec(_) => h.read(codec, b)
    case StructSliceCodec(_, _) => h.read(codec, b)
    case MapCodec(_) => h.read(codec, b)
  }

  /** Functions that read a constant fail on any other value. They are run as the generated assignment
      expects them, as if they also returned the value; Builds says whether they do. */
  function ReadBasic(h: Handlers, codec: Codec, lit: Option<Val>, b: Bytes): Dec<Val> {
    match ReadFlat(h, codec, b)
    case Bad => Bad
    case Ok(x, rest) => if lit.Some? && x != lit.value then Bad else Ok(x, rest)
  }

  /** The variables so far: vals[i] is a_(i+1), bufs[i] is b_i. */
  datatype Env = Env(vals: seq<Val>, bufs: seq<Bytes>)

  /** The first n statements of the generated decoder; none if one of them returned an error.
      The fuel bounds how deep decoders of structs call each other. */
  function RunDec(pkg: Package, h: Handlers, stmts: seq<DecStmt>, b0: Bytes, n: nat, fuel: nat): Option<Env>
    requires n <= |stmts|
    decreases fuel, n
  {
    if n == 0 then Some(Env([], [b0]))
    else
      match RunDec(pkg, h, stmts, b0, n - 1, fuel)
      case None => None
      case Some(env) =>
        var stmt := stmts[n - 1];
        if stmt.oldB >= |env.bufs| || stmt.newB != |env.bufs| then None
        else
          var b := env.bufs[stmt.oldB];
          match ReadStmt(pkg, h, stmt, b, fuel)
          case Bad => None
          case Ok(a, rest) => Some(Env(env.vals + [a], env.bufs + [rest]))
  }

  /** The call in one statement of a decoder. */
  function ReadStmt(pkg: Package, h: Handlers, stmt: DecStmt, b: Bytes, fuel: nat): Dec<Val>
    decreases fuel, 0
  {
    if !Compiled(pkg, stmt.codec) then ReadBasic(h, stmt.codec, stmt.lit, b)
    else if fuel == 0 then Bad
    else Decode(pkg, h, stmt.codec.name, b, fuel - 1)
  }

  /** The value of a field in the returned composite literal. */
  function InitVal(inits: seq<Init>, vals: seq<Val>, key: string): Option<Val> {
    if inits == [] then None
    else if inits[0].key == key then (if 0 < inits[0].var_ <= |vals| then Some(vals[inits[0].var_ - 1]) else None)
    else InitVal(inits[1..], vals, key)
  }

  /** TDecode(b0). */
  function Decode(pkg: Package, h: Handlers, name: string, b0: Bytes, fuel: nat): Dec<Val>
    decreases fuel, |if name in pkg then pkg[name].fields else []| + 1
  {
    if name !in pkg || !Supported(pkg[name]) then Bad
    else
      var st := pkg[name];
      var f := GenDecode(st);
      match RunDec(pkg, h, f.stmts, b0, |f.stmts|, fuel)
      case None => Bad
      case Some(env) =>
        if f.retB < |env.bufs| && forall i: nat | i < |st.fields| :: InitVal(f.inits, env.vals, st.fields[i].name).Some?
        then Ok(StructVal(seq(|st.fields|, i requires 0 <= i < |st.fields| =>
                                InitVal(f.inits, env.vals, st.fields[i].name).value)),
                env.bufs[f.retB])
        else Bad
  }

  // ---- round trip

  /** What an encoder appends to b. */
  function Payload(pkg: Package, h: Handlers, v: Val, codec: Codec, b: Bytes): Bytes
    requires Fits(pkg, v, codec)
    decreases v, 1, 0
  {
    if Compiled(pkg, codec) then FieldsPayload(pkg, h, codec.name, v, b, |v.fields|) else FlatPayload(h, v, codec, b)
  }

  function FlatPayload(h: Handlers, v: Val, codec: Codec, b: Bytes): Bytes {
    match WriteFlat(h, b, codec, v)
    case None => []
    case Some(b') => b'[|b|..]
  }

  function FieldsPayload(pkg: Package, h: Handlers, name: string, v: Val, b: Bytes, n: nat): Bytes
    requires name in pkg && Fits(pkg, v, StructCodec(name)) && n <= |v.fields|
    decreases v, 0, n
  {
    if n == 0 then []
    else
      var before := FieldsPayload(pkg, h, name, v, b, n - 1);
      before + Payload(pkg, h, v.fields[n - 1], GenFieldEnc(pkg[name].fields[n - 1]).value.codec, b + before)
  }

  /** The constants have the types of their fields. */
  predicate LitsFit(pkg: Package, st: Struct)
    requires Supported(st)
  {
    forall i: nat | i < |st.fields| && ConstField(st.fields[i]) ::
      Fits(pkg, ConstOf(st.fields[i]).value, GenFieldEnc(st.fields[i]).value.codec)
  }

  ghost predicate Usable(pkg: Package) {
    PackageSupported(pkg) && forall n | n in pkg :: NamesDistinct(pkg[n]) && LitsFit(pkg, pkg[n])
  }

  /** The const invariants of the comments hold for v and for the structs below it. */
  predicate MeetsConsts(pkg: Package, v: Val, codec: Codec)
    requires Fits(pkg, v, codec)
    decreases v
  {
    Compiled(pkg, codec) ==>
      forall i: nat | i < |v.fields| ::
        var f := pkg[codec.name].fields[i];
        (ConstField(f) ==> v.fields[i] == ConstOf(f).value) && MeetsConsts(pkg, v.fields[i], GenFieldEnc(f).value.codec)
  }

  /** v with the constants in the place of what it has there. */
  function WithConsts(pkg: Package, v: Val, codec: Codec): Val
    requires Fits(pkg, v, codec)
    decreases v
  {
    if !Compiled(pkg, codec) then v
    else
      StructVal(seq(|v.fields|, i requires 0 <= i < |v.fields| =>
        var f := pkg[codec.name].fields[i];
        if ConstField(f) then ConstOf(f).value else WithConsts(pkg, v.fields[i], GenFieldEnc(f).value.codec)))
  }

  lemma FlatAppends(pkg: Package, h: Handlers, b: Bytes, codec: Codec, v: Val)
    requires Fits(pkg, v, codec) && !Compiled(pkg, codec)
    ensures WriteFlat(h, b, codec, v) == Some(b + FlatPayload(h, v, codec, b))
  {
  }

  lemma FlatRead(pkg: Package, h: Handlers, codec: Codec, v: Val, b: Bytes, tail: Bytes)
    requires Fits(pkg, v, codec) && !Compiled(pkg, codec) && (IsHandler(codec) ==> HandlerInverse(h, codec))
    ensures ReadFlat(h, codec, FlatPayload(h, v, codec, b) + tail) == Ok(v, tail)
  {
    assert forall s: Bytes :: (b + s)[|b|..] == s;
    if IsHandler(codec) {
      assert FlatPayload(h, v, codec, b) == h.bytes(codec, v.h, b);
    } else {
      match codec
      case BoolCodec =>
      case ByteCodec =>
      case IntCodec => IntRead(v.n, tail);
      case SliceCodec(depth) => SlicesRead(h, codec, v, b, tail);
    }
  }

  lemma SlicesRead(h: Handlers, codec: Codec, v: Val, b: Bytes, tail: Bytes)
    requires codec.SliceCodec? && Fits(map[], v, codec)
    ensures ReadFlat(h, codec, FlatPayload(h, v, codec, b) + tail) == Ok(v, tail)
  {
    assert forall s: Bytes :: (b + s)[|b|..] == s;
    if codec.depth == 1 {
      SliceRead(v.s1, tail);
    } else if codec.depth == 2 {
      Slice2DRead(v.s2, tail);
    } else {
      Slice3DRead(v.s3, tail);
    }
  }

  lemma DistinctIndex(st: Struct, i: nat)
    requires NamesDistinct(st) && i < |st.fields|
    ensures FieldIndex(st.fields, st.fields[i].name) == i
  {
    var j := FieldIndex(st.fields, st.fields[i].name);
    assert j <= i;
  }

  /** Statement i of the encoder and of the decoder. */
  lemma EncStmtOf(pkg: Package, name: string, i: nat)
    requires Usable(pkg) && name in pkg && i < |pkg[name].fields|
    ensures Supported(pkg[name])
    ensures var f := pkg[name].fields[i];
            GenEncode(pkg[name])[i]
            == EncStmt(GenFieldEnc(f).value.codec, if ConstField(f) then LitArg(ConstOf(f).value) else FieldArg(f.name))
    ensures var f := pkg[name].fields[i];
            GenDecode(pkg[name]).stmts[i] == DecStmt(GenFieldEnc(f).value.codec, ConstOf(f), i, i + 1)
  {
    var f := pkg[name].fields[i];
    FieldGensAgree(f, i);
  }

  function Height(v: Val): nat {
    if v.StructVal? then 1 + MaxHeight(v.fields) else 0
  }

  function MaxHeight(vs: seq<Val>): (m: nat)
    ensures forall i: nat | i < |vs| :: Height(vs[i]) <= m
  {
    if vs == [] then 0
    else
      var rest := MaxHeight(vs[1..]);
      assert forall i: nat | 0 < i < |vs| :: vs[i] == vs[1..][i - 1];
      if Height(vs[0]) > rest then Height(vs[0]) else rest
  }

  lemma {:induction false} MaxHeightBound(vs: seq<Val>, m: nat)
    requires forall i: nat | i < |vs| :: Height(vs[i]) <= m
    ensures MaxHeight(vs) <= m
  {
    if vs != [] {
      assert forall i: nat | i < |vs[1..]| :: vs[1..][i] == vs[i + 1];
      MaxHeightBound(vs[1..], m);
    }
  }

  /** Putting the constants in gives a value that meets them, and changes nothing if and only if
      they were met. */
  lemma {:induction false} ConstsApplied(pkg: Package, v: Val, codec: Codec)
    requires Usable(pkg) && Fits(pkg, v, codec)
    ensures var w := WithConsts(pkg, v, codec);
            && Fits(pkg, w, codec) && Height(w) <= Height(v) && MeetsConsts(pkg, w, codec)
            && (w == v <==> MeetsConsts(pkg, v, codec))
    decreases v, 1
  {
    if Compiled(pkg, codec) {
      hide Usable, GenFieldEnc, ConstOf, ConstField;
      var w := WithConsts(pkg, v, codec);
      forall i: nat | i < |v.fields|
        ensures FieldApplied(pkg, codec.name, v, w.fields[i], i)
      {
        FieldConst(pkg, codec.name, v, i);
      }
      MaxHeightBound(w.fields, MaxHeight(v.fields));
    }
  }

  /** v is a value of the package's struct of this name. */
  predicate IsVal(pkg: Package, name: string, v: Val) {
    name in pkg && Fits(pkg, v, StructCodec(name))
  }

  ghost predicate FieldApplied(pkg: Package, name: string, v: Val, x: Val, i: nat)
    requires IsVal(pkg, name, v) && i < |v.fields|
  {
    var f := pkg[name].fields[i];
    var codec := GenFieldEnc(f).value.codec;
    && Fits(pkg, x, codec) && Height(x) <= Height(v.fields[i])
    && MeetsConsts(pkg, x, codec) && (ConstField(f) ==> x == ConstOf(f).value)
    && (x == v.fields[i] <==>
          (ConstField(f) ==> v.fields[i] == ConstOf(f).value) && MeetsConsts(pkg, v.fields[i], codec))
  }

  lemma FieldConst(pkg: Package, name: string, v: Val, i: nat)
    requires Usable(pkg) && IsVal(pkg, name, v) && i < |v.fields|
    ensures FieldApplied(pkg, name, v, WithConsts(pkg, v, StructCodec(name)).fields[i], i)
    decreases v, 0
  {
    var f := pkg[name].fields[i];
    FitsField(pkg, name, v, i);
    if ConstField(f) {
      ConstFits(pkg, name, i);
    } else {
      ConstsApplied(pkg, v.fields[i], GenFieldEnc(f).value.codec);
    }
  }

  /** Constant fields are of basic types. */
  lemma ConstFits(pkg: Package, name: string, i: nat)
    requires Usable(pkg) && name in pkg && i < |pkg[name].fields| && ConstField(pkg[name].fields[i])
    ensures Supported(pkg[name])
    ensures var f := pkg[name].fields[i];
            var codec := GenFieldEnc(f).value.codec;
            !codec.StructCodec? && Fits(pkg, ConstOf(f).value, codec) && Height(ConstOf(f).value) == 0
  {
  }

  /** An encoder appends the payload of the value, with the constants put in, to its buffer. */
  lemma {:induction false} EncodeAppends(pkg: Package, h: Handlers, name: string, v: Val, b0: Bytes)
    requires Usable(pkg) && IsVal(pkg, name, v)
    ensures var w := WithConsts(pkg, v, StructCodec(name));
            && IsVal(pkg, name, w)
            && Encode(pkg, h, name, v, b0) == Some(b0 + Payload(pkg, h, w, StructCodec(name), b0))
    decreases v, 1, 0
  {
    hide WithConsts, RunEnc, FieldsPayload;
    FitsStruct(pkg, name, v);
    ConstsApplied(pkg, v, StructCodec(name));
    var w := WithConsts(pkg, v, StructCodec(name));
    FitsStruct(pkg, name, w);
    RunEncAppends(pkg, h, name, v, w, b0, |v.fields|);
  }

  lemma {:induction false} RunEncAppends(pkg: Package, h: Handlers, name: string, v: Val, w: Val, b0: Bytes, n: nat)
    requires Usable(pkg) && IsVal(pkg, name, v) && n <= |v.fields|
    requires w == WithConsts(pkg, v, StructCodec(name)) && IsVal(pkg, name, w)
    ensures RunEnc(pkg, h, name, v, b0, n) == Some(b0 + FieldsPayload(pkg, h, name, w, b0, n))
    decreases v, 0, n
  {
    hide Usable, GenFieldEnc, GenEncode, Fits, Encode, RunEncStmt, WithConsts, Payload;
    FitsStruct(pkg, name, v);
    FitsStruct(pkg, name, w);
    if n == 0 {
      assert b0 + [] == b0;
    } else {
      RunEncAppends(pkg, h, name, v, w, b0, n - 1);
      var b := b0 + FieldsPayload(pkg, h, name, w, b0, n - 1);
      StmtAppends(pkg, h, name, v, w, b, n - 1);
      assert b + Payload(pkg, h, w.fields[n - 1], GenFieldEnc(pkg[name].fields[n - 1]).value.codec, b)
             == b0 + FieldsPayload(pkg, h, name, w, b0, n);
    }
  }

  /** Statement i appends the payload of field i, or of its constant. */
  lemma StmtAppends(pkg: Package, h: Handlers, name: string, v: Val, w: Val, b: Bytes, i: nat)
    requires Usable(pkg) && IsVal(pkg, name, v) && i < |v.fields|
    requires w == WithConsts(pkg, v, StructCodec(name)) && IsVal(pkg, name, w)
    ensures name in pkg && Supported(pkg[name]) && v.StructVal? && |v.fields| == |pkg[name].fields| && i < |w.fields|
    ensures Fits(pkg, w.fields[i], GenFieldEnc(pkg[name].fields[i]).value.codec)
    ensures RunEncStmt(pkg, h, name, v, b, GenEncode(pkg[name])[i])
            == Some(b + Payload(pkg, h, w.fields[i], GenFieldEnc(pkg[name].fields[i]).value.codec, b))
    decreases v, 0, 0
  {
    hide WriteFlat, Usable, GenFieldEnc, GenEncode, FlatPayload, Fits, Encode, ConstOf, WithConsts;
    FitsStruct(pkg, name, v);
    FitsStruct(pkg, name, w);
    NamesOf(pkg, name);
    EncStmtOf(pkg, name, i);
    DistinctIndex(pkg[name], i);
    FitsField(pkg, name, v, i);
    FitsField(pkg, name, w, i);
    FieldWithConst(pkg, name, v, i);
    var f := pkg[name].fields[i];
    var codec := GenFieldEnc(f).value.codec;
    if ConstField(f) {
      ConstFits(pkg, name, i);
      FlatAppends(pkg, h, b, codec, ConstOf(f).value);
    } else if Compiled(pkg, codec) {
      EncodeAppends(pkg, h, codec.name, v.fields[i], b);
    } else {
      FlatWithConsts(pkg, v.fields[i], codec);
      FlatAppends(pkg, h, b, codec, v.fields[i]);
    }
  }

  lemma FieldWithConst(pkg: Package, name: string, v: Val, i: nat)
    requires IsVal(pkg, name, v) && i < |v.fields|
    ensures var f := pkg[name].fields[i];
            WithConsts(pkg, v, StructCodec(name)).fields[i]
            == if ConstField(f) then ConstOf(f).value else WithConsts(pkg, v.fields[i], GenFieldEnc(f).value.codec)
  {
  }

  lemma FlatWithConsts(pkg: Package, v: Val, codec: Codec)
    requires Fits(pkg, v, codec) && !Compiled(pkg, codec)
    ensures WithConsts(pkg, v, codec) == v
  {
  }

  lemma NamesOf(pkg: Package, name: string)
    requires Usable(pkg) && name in pkg
    ensures NamesDistinct(pkg[name]) && Supported(pkg[name])
  {
  }

  /** A decoder that is given the encoding of a value that meets the constants, followed by anything,
      returns the value and what follows. */
  lemma {:induction false} DecodeReads(pkg: Package, h: Handlers, name: string, v: Val, b0: Bytes, tail: Bytes,
                                       fuel: nat)
    requires Usable(pkg) && HandlersInverse(pkg, h) && IsVal(pkg, name, v) && Height(v) <= fuel + 1
    requires MeetsConsts(pkg, v, StructCodec(name))
    ensures Decode(pkg, h, name, Payload(pkg, h, v, StructCodec(name), b0) + tail, fuel) == Ok(v, tail)
    decreases v, 1, 0
  {
    hide RunDec, FieldsPayload, Usable, GenFieldEnc, HandlersInverse, InitVal, MeetsConsts;
    var st := pkg[name];
    NamesOf(pkg, name);
    var env := RunDecReads(pkg, h, name, v, b0, tail, |v.fields|, fuel);
    forall i: nat | i < |st.fields|
      ensures InitVal(GenDecode(st).inits, env.vals, st.fields[i].name) == Some(v.fields[i])
    {
      InitsBind(GenDecode(st).inits, env.vals, st, 0, i);
    }
    assert v == StructVal(seq(|st.fields|, i requires 0 <= i < |st.fields| =>
                                InitVal(GenDecode(st).inits, env.vals, st.fields[i].name).value));
  }

  /** The composite literal binds each field to its own variable. */
  lemma {:induction false} InitsBind(inits: seq<Init>, vals: seq<Val>, st: Struct, k: nat, i: nat)
    requires NamesDistinct(st) && k <= i < |st.fields| == |vals|
    requires |inits| == |st.fields| - k
             && forall j: nat | j < |inits| :: inits[j] == Init(st.fields[k + j].name, k + j + 1)
    ensures InitVal(inits, vals, st.fields[i].name) == Some(vals[i])
    decreases |inits|
  {
    if k < i {
      assert forall j: nat | j < |inits[1..]| :: inits[1..][j] == inits[j + 1];
      InitsBind(inits[1..], vals, st, k + 1, i);
    }
  }

  /** After n statements, n fields are read, and the rest of the encoding is left. */
  lemma {:induction false} RunDecReads(pkg: Package, h: Handlers, name: string, v: Val, b0: Bytes, tail: Bytes,
                                       n: nat, fuel: nat)
    returns (env: Env)
    requires Usable(pkg) && HandlersInverse(pkg, h) && IsVal(pkg, name, v) && Height(v) <= fuel + 1 && n <= |v.fields|
    requires MeetsConsts(pkg, v, StructCodec(name))
    ensures Supported(pkg[name])
    ensures RunDec(pkg, h, GenDecode(pkg[name]).stmts, FieldsPayload(pkg, h, name, v, b0, n) + tail, n, fuel)
            == Some(env)
    ensures env.vals == v.fields[..n] && |env.bufs| == n + 1 && env.bufs[n] == tail
    decreases v, 0, n
  {
    hide GenFieldEnc, HandlersInverse, Usable, GenDecode, Payload, Fits, Height, MeetsConsts, ConstOf, ReadStmt;
    FitsStruct(pkg, name, v);
    NamesOf(pkg, name);
    var stmts := GenDecode(pkg[name]).stmts;
    if n == 0 {
      assert [] + tail == tail;
      env := Env([], [tail]);
    } else {
      EncStmtOf(pkg, name, n - 1);
      FitsField(pkg, name, v, n - 1);
      var codec, x := GenFieldEnc(pkg[name].fields[n - 1]).value.codec, v.fields[n - 1];
      var b := b0 + FieldsPayload(pkg, h, name, v, b0, n - 1);
      var tail' := Payload(pkg, h, x, codec, b) + tail;
      var env' := RunDecReads(pkg, h, name, v, b0, tail', n - 1, fuel);
      assert FieldsPayload(pkg, h, name, v, b0, n) + tail == FieldsPayload(pkg, h, name, v, b0, n - 1) + tail';
      StmtReads(pkg, h, name, v, b, tail, n - 1, fuel);
      env := Env(env'.vals + [x], env'.bufs + [tail]);
      assert v.fields[..n] == v.fields[..n - 1] + [x];
    }
  }

  /** Statement i reads the payload of field i. */
  lemma StmtReads(pkg: Package, h: Handlers, name: string, v: Val, b: Bytes, tail: Bytes, i: nat, fuel: nat)
    requires Usable(pkg) && HandlersInverse(pkg, h) && IsVal(pkg, name, v) && Height(v) <= fuel + 1 && i < |v.fields|
    requires MeetsConsts(pkg, v, StructCodec(name))
    ensures Supported(pkg[name]) && v.StructVal? && i < |pkg[name].fields|
    ensures var codec := GenFieldEnc(pkg[name].fields[i]).value.codec;
            Fits(pkg, v.fields[i], codec) &&
            ReadStmt(pkg, h, GenDecode(pkg[name]).stmts[i], Payload(pkg, h, v.fields[i], codec, b) + tail, fuel)
            == Ok(v.fields[i], tail)
    decreases v, 0, 0
  {
    hide GenFieldEnc, HandlersInverse, HandlerInverse, Usable, ReadFlat, GenDecode, FlatPayload, Fits, Decode, Height;
    hide MeetsConsts, ConstOf;
    FitsStruct(pkg, name, v);
    EncStmtOf(pkg, name, i);
    FitsField(pkg, name, v, i);
    FieldMeets(pkg, name, v, i);
    var codec := GenFieldEnc(pkg[name].fields[i]).value.codec;
    if Compiled(pkg, codec) {
      StructNotConst(pkg, name, i);
      DecodeReads(pkg, h, codec.name, v.fields[i], b, tail, fuel - 1);
    } else {
      HandlerOf(pkg, h, name, i);
      FlatRead(pkg, h, codec, v.fields[i], b, tail);
    }
  }

  lemma HandlerOf(pkg: Package, h: Handlers, name: string, i: nat)
    requires name in pkg && Supported(pkg[name]) && i < |pkg[name].fields| && HandlersInverse(pkg, h)
    ensures var codec := GenFieldEnc(pkg[name].fields[i]).value.codec;
            !Compiled(pkg, codec) && IsHandler(codec) ==> HandlerInverse(h, codec)
  {
    hide GenFieldEnc, HandlerInverse;
    var f := pkg[name].fields[i];
    assert f in pkg[name].fields;
    assert GenFieldEnc(f).Some?;
    assert Calls(pkg, GenFieldEnc(f).value.codec);
  }

  lemma FieldMeets(pkg: Package, name: string, v: Val, i: nat)
    requires IsVal(pkg, name, v) && MeetsConsts(pkg, v, StructCodec(name)) && i < |v.fields|
    ensures var f := pkg[name].fields[i];
            (ConstField(f) ==> v.fields[i] == ConstOf(f).value)
            && MeetsConsts(pkg, v.fields[i], GenFieldEnc(f).value.codec)
  {
  }

  lemma StructNotConst(pkg: Package, name: string, i: nat)
    requires name in pkg && Supported(pkg[name]) && i < |pkg[name].fields|
    requires IsHandler(GenFieldEnc(pkg[name].fields[i]).value.codec)
    ensures !ConstField(pkg[name].fields[i])
  {
  }

  lemma FitsStruct(pkg: Package, name: string, v: Val)
    requires IsVal(pkg, name, v)
    ensures name in pkg && v.StructVal? && Supported(pkg[name]) && |v.fields| == |pkg[name].fields|
  {
  }

  lemma FitsField(pkg: Package, name: string, v: Val, i: nat)
    requires IsVal(pkg, name, v) && i < |v.fields|
    ensures i < |pkg[name].fields| && Supported(pkg[name]) && v.StructVal?
    ensures Fits(pkg, v.fields[i], GenFieldEnc(pkg[name].fields[i]).value.codec)
    ensures Height(v.fields[i]) < Height(v)
    ensures Compiled(pkg, GenFieldEnc(pkg[name].fields[i]).value.codec) ==> Height(v.fields[i]) > 0
  {
  }

  /** For every package the compiler accepts, every struct, every value of it and anything after its
      encoding: running the statements of the generated decoder on what those of the encoder wrote
      gives the value with the constants put in, and what follows. So it gives back the value if and
      only if its const invariants hold. */
  lemma RoundTrip(pkg: Package, h: Handlers, name: string, v: Val, tail: Bytes, fuel: nat)
    requires Usable(pkg) && HandlersInverse(pkg, h) && IsVal(pkg, name, v) && Height(v) <= fuel + 1
    ensures Encode(pkg, h, name, v, []).Some?
    ensures var r := Decode(pkg, h, name, Encode(pkg, h, name, v, []).value + tail, fuel);
            && r == Ok(WithConsts(pkg, v, StructCodec(name)), tail)
            && (r == Ok(v, tail) <==> MeetsConsts(pkg, v, StructCodec(name)))
  {
    hide HandlersInverse, Encode, Decode, Payload, Usable, MeetsConsts, WithConsts, Fits, Height;
    var w := WithConsts(pkg, v, StructCodec(name));
    EncodeAppends(pkg, h, name, v, []);
    assert [] + Payload(pkg, h, w, StructCodec(name), []) == Payload(pkg, h, w, StructCodec(name), []);
    ConstsApplied(pkg, v, StructCodec(name));
    DecodeReads(pkg, h, name, w, [], tail, fuel);
  }

  // ---- nil pointers

  /** The encoders follow no nil pointer: they read a field of *v unless it is constant. */
  predicate ReadsNoNil(pkg: Package, v: Val, codec: Codec)
    requires Typed(pkg, v, codec)
    decreases v
  {
    Compiled(pkg, codec) ==>
      var fields := pkg[codec.name].fields;
      if v.NilVal? then forall i: nat | i < |fields| :: ConstField(fields[i])
      else
        forall i: nat | i < |v.fields| ::
          !ConstField(fields[i]) ==> ReadsNoNil(pkg, v.fields[i], GenFieldEnc(fields[i]).value.codec)
  }

  lemma {:induction false} FitsIff(pkg: Package, v: Val, codec: Codec)
    ensures Fits(pkg, v, codec) <==> Typed(pkg, v, codec) && NoNil(v)
    decreases v
  {
    hide GenFieldEnc;
    if Compiled(pkg, codec) && v.StructVal? && Supported(pkg[codec.name]) && |v.fields| == |pkg[codec.name].fields| {
      forall i: nat | i < |v.fields|
        ensures Fits(pkg, v.fields[i], GenFieldEnc(pkg[codec.name].fields[i]).value.codec)
                <==> Typed(pkg, v.fields[i], GenFieldEnc(pkg[codec.name].fields[i]).value.codec) && NoNil(v.fields[i])
      {
        FitsIff(pkg, v.fields[i], GenFieldEnc(pkg[codec.name].fields[i]).value.codec);
      }
    }
  }

  /** The first n statements get through. */
  ghost predicate StmtsReadNoNil(pkg: Package, name: string, v: Val, n: nat)
    requires name in pkg && Typed(pkg, v, StructCodec(name)) && n <= |pkg[name].fields|
  {
    forall i: nat | i < n :: StmtReadsNoNil(pkg, name, v, i)
  }

  ghost predicate StmtReadsNoNil(pkg: Package, name: string, v: Val, i: nat)
    requires name in pkg && Typed(pkg, v, StructCodec(name)) && i < |pkg[name].fields|
  {
    var f := pkg[name].fields[i];
    ConstField(f) || (v.StructVal? && ReadsNoNil(pkg, v.fields[i], GenFieldEnc(f).value.codec))
  }

  lemma ReadsNoNilIff(pkg: Package, name: string, v: Val)
    requires name in pkg && Typed(pkg, v, StructCodec(name))
    ensures ReadsNoNil(pkg, v, StructCodec(name)) <==> StmtsReadNoNil(pkg, name, v, |pkg[name].fields|)
  {
    hide GenFieldEnc, ConstField;
    var fields := pkg[name].fields;
    assert v.NilVal? ==> forall i: nat | i < |fields| :: StmtReadsNoNil(pkg, name, v, i) <==> ConstField(fields[i]);
    if v.StructVal? {
      forall i: nat | i < |v.fields|
        ensures StmtReadsNoNil(pkg, name, v, i)
                <==> (!ConstField(fields[i]) ==> ReadsNoNil(pkg, v.fields[i], GenFieldEnc(fields[i]).value.codec))
      {
      }
      if StmtsReadNoNil(pkg, name, v, |fields|) {
        forall i: nat | i < |v.fields|
          ensures !ConstField(fields[i]) ==> ReadsNoNil(pkg, v.fields[i], GenFieldEnc(fields[i]).value.codec)
        {
          assert StmtReadsNoNil(pkg, name, v, i);
        }
      }
    } else if StmtsReadNoNil(pkg, name, v, |fields|) {
      forall i: nat | i < |fields|
        ensures ConstField(fields[i])
      {
        assert StmtReadsNoNil(pkg, name, v, i);
      }
    }
  }

  /** For every schema and every value, nil pointers included: the generated encoder returns bytes if
      and only if it follows no nil pointer. */
  lemma {:induction false} EncodeIff(pkg: Package, h: Handlers, name: string, v: Val, b0: Bytes)
    requires Usable(pkg) && name in pkg && Typed(pkg, v, StructCodec(name))
    ensures Encode(pkg, h, name, v, b0).Some? <==> ReadsNoNil(pkg, v, StructCodec(name))
    decreases v, 1, 0
  {
    hide RunEnc, ReadsNoNil, StmtsReadNoNil, GenFieldEnc;
    ReadsNoNilIff(pkg, name, v);
    RunEncIff(pkg, h, name, v, b0, |pkg[name].fields|);
  }

  lemma {:induction false} RunEncIff(pkg: Package, h: Handlers, name: string, v: Val, b0: Bytes, n: nat)
    requires Usable(pkg) && name in pkg && Typed(pkg, v, StructCodec(name)) && n <= |pkg[name].fields|
    ensures Supported(pkg[name]) && IsPointer(pkg[name], v)
    ensures RunEnc(pkg, h, name, v, b0, n).Some? <==> StmtsReadNoNil(pkg, name, v, n)
    decreases v, 0, n
  {
    hide Usable, StmtReadsNoNil, RunEncStmt, GenEncode, GenFieldEnc;
    if n > 0 {
      RunEncIff(pkg, h, name, v, b0, n - 1);
      if RunEnc(pkg, h, name, v, b0, n - 1).Some? {
        StmtIff(pkg, h, name, v, RunEnc(pkg, h, name, v, b0, n - 1).value, n - 1);
      }
    }
  }

  lemma StmtIff(pkg: Package, h: Handlers, name: string, v: Val, b: Bytes, i: nat)
    requires Usable(pkg) && name in pkg && Typed(pkg, v, StructCodec(name)) && i < |pkg[name].fields|
    ensures Supported(pkg[name]) && IsPointer(pkg[name], v)
    ensures RunEncStmt(pkg, h, name, v, b, GenEncode(pkg[name])[i]).Some? <==> StmtReadsNoNil(pkg, name, v, i)
    decreases v, 0, 0
  {
    hide WriteFlat, Usable, GenFieldEnc, GenEncode, Encode, ConstOf, Fits;
    NamesOf(pkg, name);
    EncStmtOf(pkg, name, i);
    DistinctIndex(pkg[name], i);
    var f := pkg[name].fields[i];
    var codec := GenFieldEnc(f).value.codec;
    if ConstField(f) {
      ConstFits(pkg, name, i);
      FlatAppends(pkg, h, b, codec, ConstOf(f).value);
    } else if v.StructVal? {
      if Compiled(pkg, codec) {
        EncodeIff(pkg, h, codec.name, v.fields[i], b);
      } else {
        FlatAppends(pkg, h, b, codec, v.fields[i]);
      }
    }
  }

  /** A decoder returns no nil pointer: a value that it returns, if it is of the right type, has none. */
  lemma {:induction false} DecodedFits(pkg: Package, h: Handlers, name: string, v: Val, b: Bytes, rest: Bytes,
                                       fuel: nat)
    requires Usable(pkg) && name in pkg && Typed(pkg, v, StructCodec(name))
    requires Decode(pkg, h, name, b, fuel) == Ok(v, rest)
    ensures Fits(pkg, v, StructCodec(name))
    decreases v
  {
    hide Usable, GenFieldEnc, GenDecode, RunDec, InitVal, ReadStmt;
    NamesOf(pkg, name);
    var st := pkg[name];
    var stmts := GenDecode(st).stmts;
    assert |stmts| == |st.fields| by {
      DecodeLengths(st);
    }
    var env := RunDec(pkg, h, stmts, b, |stmts|, fuel).value;
    forall i: nat | i < |v.fields|
      ensures Fits(pkg, v.fields[i], GenFieldEnc(st.fields[i]).value.codec)
    {
      var b' := RunDecVal(pkg, h, stmts, b, |stmts|, fuel, i);
      DecodedField(st, env.vals, i);
      EncStmtOf(pkg, name, i);
      var codec := GenFieldEnc(st.fields[i]).value.codec;
      if Compiled(pkg, codec) {
        DecodedStmt(pkg, h, stmts[i], b', fuel);
        DecodedFits(pkg, h, codec.name, v.fields[i], b', ReadStmt(pkg, h, stmts[i], b', fuel).rest, fuel - 1);
      }
    }
  }

  lemma DecodeLengths(st: Struct)
    requires Supported(st)
    ensures |GenDecode(st).stmts| == |GenDecode(st).inits| == |st.fields|
  {
  }

  lemma DecodedStmt(pkg: Package, h: Handlers, stmt: DecStmt, b: Bytes, fuel: nat)
    requires Compiled(pkg, stmt.codec) && ReadStmt(pkg, h, stmt, b, fuel).Ok?
    ensures fuel > 0 && ReadStmt(pkg, h, stmt, b, fuel) == Decode(pkg, h, stmt.codec.name, b, fuel - 1)
  {
  }

  lemma DecodedField(st: Struct, vals: seq<Val>, i: nat)
    requires Supported(st) && NamesDistinct(st) && i < |st.fields| == |vals|
    ensures InitVal(GenDecode(st).inits, vals, st.fields[i].name) == Some(vals[i])
  {
    InitsBind(GenDecode(st).inits, vals, st, 0, i);
  }

  /** Variable i holds what statement i has read. */
  lemma {:induction false} RunDecVal(pkg: Package, h: Handlers, stmts: seq<DecStmt>, b0: Bytes, n: nat, fuel: nat,
                                     i: nat)
    returns (b: Bytes)
    requires i < n <= |stmts| && RunDec(pkg, h, stmts, b0, n, fuel).Some?
    ensures var env := RunDec(pkg, h, stmts, b0, n, fuel).value;
            && |env.vals| == n
            && ReadStmt(pkg, h, stmts[i], b, fuel).Ok? && ReadStmt(pkg, h, stmts[i], b, fuel).val == env.vals[i]
  {
    hide ReadStmt;
    RunDecLength(pkg, h, stmts, b0, n - 1, fuel);
    if i < n - 1 {
      b := RunDecVal(pkg, h, stmts, b0, n - 1, fuel, i);
    } else {
      b := RunDec(pkg, h, stmts, b0, n - 1, fuel).value.bufs[stmts[i].oldB];
    }
  }

  lemma {:induction false} RunDecLength(pkg: Package, h: Handlers, stmts: seq<DecStmt>, b0: Bytes, n: nat, fuel: nat)
    requires n <= |stmts| && RunDec(pkg, h, stmts, b0, n, fuel).Some?
    ensures |RunDec(pkg, h, stmts, b0, n, fuel).value.vals| == n
  {
    hide ReadStmt;
    if n > 0 {
      RunDecLength(pkg, h, stmts, b0, n - 1, fuel);
    }
  }
}
