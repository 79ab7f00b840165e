/** getCanonTyName of serde/compiler.go: which types it gives one name. */
module SerdeNames {
  import opened Bytes
  import opened Serde

  // ---- what a name says of a type

  /** The type without what its name does not show: defined types inside it, and the packages of
      structs. */
  function Erase(ty: Ty): Ty {
    match ty
    case SliceTy(elem) => SliceTy(Erase(elem))
    case MapTy(key, elem) => MapTy(Erase(key), Erase(elem))
    case PointerTy(st) => Local(st.name)
    case DefinedTy(_, _, def) => Erase(def)
    case _ => ty
  }

  /** Names of basic types and of structs. */
  datatype Names = Names(basics: set<string>, structs: set<string>)

  /** The type is built of basic types and structs of these names. */
  predicate Over(ty: Ty, names: Names) {
    match ty
    case BoolTy => "bool" in names.basics
    case ByteTy => "byte" in names.basics
    case Uint64Ty => "uint64" in names.basics
    case OtherBasic(name) => name in names.basics && name !in {"bool", "byte", "uint64"}
    case SliceTy(elem) => Over(elem, names)
    case PointerTy(st) => st.name in names.structs
    case MapTy(key, elem) => Over(key, names) && Over(elem, names)
    case DefinedTy(_, _, def) => Over(def, names)
    case OtherTy => false
  }

  function NameOf(ty: Ty, names: Names): string
    requires Over(ty, names)
  {
    NameExists(ty, names);
    CanonTyName(ty).value
  }

  lemma {:induction false} NameExists(ty: Ty, names: Names)
    requires Over(ty, names)
    ensures CanonTyName(ty).Some?
  {
    match ty
    case SliceTy(elem) => NameExists(elem, names);
    case MapTy(key, elem) => NameExists(key, names); NameExists(elem, names);
    case DefinedTy(_, _, def) => NameExists(def, names);
    case _ =>
  }

  // ---- names as a code

  function Tokens(names: Names): set<string> {
    {"Sl", "Map"} + names.basics + names.structs
  }

  predicate IsDigit(ch: char) {
    '0' <= ch <= '9'
  }

  predicate IsToken(x: string) {
    x != [] && !IsDigit(x[0])
  }

  /** Where one token begins another, a digit follows in the other. */
  predicate Apart(x: string, y: string) {
    x < y ==> IsDigit(y[|x|])
  }

  /** No name is used twice, and no token can be mistaken for the beginning of another: as for the
      basic types of Go except uintptr, and structs that begin neither with another name nor with Sl
      or Map. */
  ghost predicate Separated(names: Names) {
    && names.basics !! names.structs && "Sl" !in names.basics + names.structs && "Map" !in names.basics + names.structs
    && (forall x | x in Tokens(names) :: IsToken(x))
    && (forall x, y | x in Tokens(names) && y in Tokens(names) :: Apart(x, y))
  }

  /** A rest that does not continue a token. */
  predicate Cut(r: string) {
    r == [] || !IsDigit(r[0])
  }

  lemma Overlap(x: string, y: string, r: string, r': string)
    requires x + r == y + r' && |x| < |y|
    ensures x < y && r != [] && r[0] == y[|x|]
  {
    assert (x + r)[|x|] == (y + r')[|x|];
    assert x == (x + r)[..|x|] == (y + r')[..|x|] == y[..|x|];
  }

  lemma TokenMatch(names: Names, x: string, y: string, r: string, r': string)
    requires Separated(names) && x in Tokens(names) && y in Tokens(names) && Cut(r) && Cut(r') && x + r == y + r'
    ensures x == y && r == r'
  {
    assert Apart(x, y) && Apart(y, x);
    if |x| < |y| {
      Overlap(x, y, r, r');
    } else if |y| < |x| {
      Overlap(y, x, r', r);
    } else {
      assert x == (x + r)[..|x|] && y == (y + r')[..|y|];
      assert r == (x + r)[|x|..] && r' == (y + r')[|y|..];
    }
  }

  /** The first token of a name, and the rest. */
  function Head(ty: Ty): string {
    match ty
    case BoolTy => "bool"
    case ByteTy => "byte"
    case Uint64Ty => "uint64"
    case OtherBasic(name) => name
    case SliceTy(_) => "Sl"
    case MapTy(_, _) => "Map"
    case PointerTy(st) => st.name
    case DefinedTy(_, _, def) => Head(def)
    case OtherTy => ""
  }

  function Rest(ty: Ty, names: Names): string
    requires Over(ty, names)
  {
    match ty
    case SliceTy(elem) => NameOf(elem, names)
    case MapTy(key, elem) => NameOf(key, names) + NameOf(elem, names)
    case DefinedTy(_, _, def) => Rest(def, names)
    case _ => []
  }

  lemma {:induction false} NameStarts(ty: Ty, names: Names)
    requires Separated(names) && Over(ty, names)
    ensures Head(ty) in Tokens(names) && NameOf(ty, names) == Head(ty) + Rest(ty, names)
    ensures NameOf(ty, names) != [] && Cut(NameOf(ty, names)) && Cut(Rest(ty, names))
  {
    assert Head(ty) + [] == Head(ty);
    match ty
    case SliceTy(elem) =>
      NameStarts(elem, names);
      NameExists(elem, names);
      assert CanonTyName(ty) == Some("Sl" + NameOf(elem, names));
    case MapTy(key, elem) =>
      NameStarts(key, names);
      NameStarts(elem, names);
      MapName(key, elem, names);
    case DefinedTy(_, _, def) => NameStarts(def, names);
    case _ =>
  }

  lemma MapName(key: Ty, elem: Ty, names: Names)
    requires Over(key, names) && Over(elem, names)
    ensures NameOf(MapTy(key, elem), names) == "Map" + (NameOf(key, names) + NameOf(elem, names))
  {
    NameExists(key, names);
    NameExists(elem, names);
    assert CanonTyName(MapTy(key, elem)) == Some("Map" + NameOf(key, names) + NameOf(elem, names));
  }

  /** The first token tells the kind of type. */
  lemma HeadsDecide(ty: Ty, ty': Ty, names: Names)
    requires Separated(names) && Over(ty, names) && Over(ty', names) && !ty.DefinedTy? && !ty'.DefinedTy?
    requires Head(ty) == Head(ty')
    ensures (ty.SliceTy? && ty'.SliceTy?) || (ty.MapTy? && ty'.MapTy?)
            || (Erase(ty) == Erase(ty') && Rest(ty, names) == Rest(ty', names) == [])
  {
    hide NameOf, Apart, IsToken;
  }

  /** Names of types are a prefix code, up to what they do not show. */
  lemma {:induction false} NamesDecode(ty: Ty, ty': Ty, names: Names, r: string, r': string)
    requires Separated(names) && Over(ty, names) && Over(ty', names) && Cut(r) && Cut(r')
    requires NameOf(ty, names) + r == NameOf(ty', names) + r'
    ensures Erase(ty) == Erase(ty') && r == r'
    decreases ty, ty', 1
  {
    hide CanonTyName, Separated, Head, NameOf, Tokens;
    if ty.DefinedTy? {
      DefinedName(ty, names);
      NamesDecode(ty.def, ty', names, r, r');
    } else if ty'.DefinedTy? {
      DefinedName(ty', names);
      NamesDecode(ty, ty'.def, names, r, r');
    } else {
      NameStarts(ty, names);
      NameStarts(ty', names);
      var x, y := Rest(ty, names) + r, Rest(ty', names) + r';
      assert Head(ty) + x == NameOf(ty, names) + r == NameOf(ty', names) + r' == Head(ty') + y;
      TokenMatch(names, Head(ty), Head(ty'), x, y);
      HeadsDecide(ty, ty', names);
      if ty.SliceTy? && ty'.SliceTy? {
        NamesDecode(ty.elem, ty'.elem, names, r, r');
      } else if ty.MapTy? && ty'.MapTy? {
        MapsDecode(ty, ty', names, r, r');
      } else {
        assert [] + r == r && [] + r' == r';
      }
    }
  }

  lemma DefinedName(ty: Ty, names: Names)
    requires Over(ty, names) && ty.DefinedTy?
    ensures Over(ty.def, names) && NameOf(ty, names) == NameOf(ty.def, names)
  {
  }

  lemma MapsDecode(ty: Ty, ty': Ty, names: Names, r: string, r': string)
    requires Separated(names) && Over(ty, names) && Over(ty', names) && Cut(r) && Cut(r') && ty.MapTy? && ty'.MapTy?
    requires Rest(ty, names) + r == Rest(ty', names) + r'
    ensures Erase(ty) == Erase(ty') && r == r'
    decreases ty, ty', 0
  {
    hide CanonTyName, Separated, NameOf;
    var k, k' := NameOf(ty.key, names), NameOf(ty'.key, names);
    var e, e' := NameOf(ty.elem, names) + r, NameOf(ty'.elem, names) + r';
    NameStarts(ty.elem, names);
    NameStarts(ty'.elem, names);
    assert k + e == Rest(ty, names) + r && k' + e' == Rest(ty', names) + r';
    NamesDecode(ty.key, ty'.key, names, e, e');
    NamesDecode(ty.elem, ty'.elem, names, r, r');
  }

  lemma {:induction false} EraseKeepsName(ty: Ty)
    ensures CanonTyName(Erase(ty)) == CanonTyName(ty)
  {
    match ty
    case SliceTy(elem) => EraseKeepsName(elem);
    case MapTy(key, elem) => EraseKeepsName(key); EraseKeepsName(elem);
    case DefinedTy(_, _, def) => EraseKeepsName(def);
    case _ =>
  }

  /** Over separated names, two types have one name if and only if they differ in nothing but
      defined types inside them and the packages of structs. */
  lemma SameNameIff(ty: Ty, ty': Ty, names: Names)
    requires Separated(names) && Over(ty, names) && Over(ty', names)
    ensures CanonTyName(ty) == CanonTyName(ty') <==> Erase(ty) == Erase(ty')
  {
    NameExists(ty, names);
    NameExists(ty', names);
    EraseKeepsName(ty);
    EraseKeepsName(ty');
    if CanonTyName(ty) == CanonTyName(ty') {
      assert NameOf(ty, names) + [] == NameOf(ty', names) + [];
      NamesDecode(ty, ty', names, [], []);
    }
  }

  // ---- when names clash

  /** x + y and x' + y' are equal if and only if one of x and x' begins the other and the rest makes up
      for it. */
  lemma ConcatsEqual(x: string, y: string, x': string, y': string)
    ensures x + y == x' + y' <==> (x <= x' && y == x'[|x|..] + y') || (x' <= x && y' == x[|x'|..] + y)
  {
    if x + y == x' + y' {
      assert x == (x + y)[..|x|] && x' == (x' + y')[..|x'|];
      assert y == (x + y)[|x|..] && y' == (x' + y')[|x'|..];
    }
    if x <= x' {
      assert x' == x + x'[|x|..];
      assert x + (x'[|x|..] + y') == (x + x'[|x|..]) + y';
    }
    if x' <= x {
      assert x == x' + x[|x'|..];
      assert x' + (x[|x'|..] + y) == (x' + x[|x'|..]) + y;
    }
  }

  /** Exactly when two map types have one name: the name of one key begins the other's, and the
      elements make up for it. */
  lemma MapNamesClashIff(key: Ty, elem: Ty, key': Ty, elem': Ty)
    requires CanonTyName(key).Some? && CanonTyName(elem).Some? && CanonTyName(key').Some? && CanonTyName(elem').Some?
    ensures var (k, e) := (CanonTyName(key).value, CanonTyName(elem).value);
            var (k', e') := (CanonTyName(key').value, CanonTyName(elem').value);
            CanonTyName(MapTy(key, elem)) == CanonTyName(MapTy(key', elem'))
            <==> (k <= k' && e == k'[|k|..] + e') || (k' <= k && e' == k[|k'|..] + e)
  {
    var (k, e) := (CanonTyName(key).value, CanonTyName(elem).value);
    var (k', e') := (CanonTyName(key').value, CanonTyName(elem').value);
    MapNameIs(key, elem);
    MapNameIs(key', elem');
    assert ("Map" + (k + e))[3..] == k + e && ("Map" + (k' + e'))[3..] == k' + e';
    ConcatsEqual(k, e, k', e');
  }

  lemma MapNameIs(key: Ty, elem: Ty)
    requires CanonTyName(key).Some? && CanonTyName(elem).Some?
    ensures CanonTyName(MapTy(key, elem)) == Some("Map" + (CanonTyName(key).value + CanonTyName(elem).value))
  {
    var k, e := CanonTyName(key).value, CanonTyName(elem).value;
    assert CanonTyName(MapTy(key, elem)) == Some("Map" + k + e);
    assert "Map" + k + e == "Map" + (k + e);
  }

  /** A struct that is named like another type makes map types clash, for every key type. */
  lemma StructNamedLikeType(name: string, ty: Ty, key: Ty)
    requires CanonTyName(ty) == Some(name) && ty != Local(name) && CanonTyName(key).Some?
    ensures var maps, maps' := MapTy(key, ty), MapTy(key, Local(name));
            maps != maps' && CanonTyName(maps) == CanonTyName(maps')
  {
    MapNamesClashIff(key, ty, key, Local(name));
  }

  /** So does a struct whose name is another struct's followed by Sl, for every element type. */
  lemma StructNamedLikeSlice(name: string, ty: Ty)
    requires CanonTyName(ty).Some?
    ensures var maps, maps' := MapTy(Local(name), SliceTy(ty)), MapTy(Local(name + "Sl"), ty);
            maps != maps' && CanonTyName(maps) == CanonTyName(maps')
  {
    assert (name + "Sl")[|name|..] == "Sl";
    MapNamesClashIff(Local(name), SliceTy(ty), Local(name + "Sl"), ty);
  }

  /** Defined types inside a type never show. */
  lemma DefinedNotShown(key: Ty, elem: Ty, path: string, name: string)
    requires CanonTyName(key).Some? && CanonTyName(elem).Some?
    ensures CanonTyName(MapTy(key, elem)) == CanonTyName(MapTy(key, DefinedTy(path, name, elem)))
    ensures MapTy(key, elem) != MapTy(key, DefinedTy(path, name, elem))
  {
    if elem == DefinedTy(path, name, elem) {
      assert false;
    }
  }
}
