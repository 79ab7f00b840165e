/** The looping codecs: nested slices of marshalutil, and the slices and maps of kt/serde_misc.go. */
module Marshal {
  import opened Bytes
  import opened KtTypes

  // ---- repeated items

  /** n items, one after the other; an error of one is an error of all. */
  function ReadMany<T>(n: nat, b: Bytes, item: Bytes -> Dec<T>): (r: Dec<seq<T>>)
    ensures r.Ok? ==> |r.val| == n
  {
    if n == 0 then Ok([], b)
    else
      match ReadMany(n - 1, b, item)
      case Bad => Bad
      case Ok(xs, b1) =>
        match item(b1)
        case Bad => Bad
        case Ok(x, b2) => Ok(xs + [x], b2)
  }

  function ManyBytes<T>(xs: seq<T>, enc: T -> Bytes): Bytes {
    if xs == [] then [] else ManyBytes(xs[..|xs| - 1], enc) + enc(xs[|xs| - 1])
  }

  lemma ManyBytesStep<T>(b0: Bytes, n: Bytes, xs: seq<T>, i: nat, enc: T -> Bytes)
    requires i < |xs|
    ensures b0 + (n + ManyBytes(xs[..i], enc)) + enc(xs[i]) == b0 + (n + ManyBytes(xs[..i + 1], enc))
  {
    assert xs[..i + 1][..i] == xs[..i];
    assert b0 + (n + ManyBytes(xs[..i], enc)) + enc(xs[i]) == b0 + (n + (ManyBytes(xs[..i], enc) + enc(xs[i])));
  }

  ghost predicate Inverse<T(!new)>(x: T, enc: T -> Bytes, item: Bytes -> Dec<T>) {
    forall tail :: item(enc(x) + tail) == Ok(x, tail)
  }

  lemma {:induction false} ManyRead<T(!new)>(xs: seq<T>, enc: T -> Bytes, item: Bytes -> Dec<T>, tail: Bytes)
    requires forall x | x in xs :: Inverse(x, enc, item)
    ensures ReadMany(|xs|, ManyBytes(xs, enc) + tail, item) == Ok(xs, tail)
  {
    if xs == [] {
      assert [] + tail == tail;
    } else {
      var init, last := xs[..|xs| - 1], xs[|xs| - 1];
      assert ManyBytes(xs, enc) + tail == ManyBytes(init, enc) + (enc(last) + tail);
      ManyRead(init, enc, item, enc(last) + tail);
      assert last in xs && Inverse(last, enc, item);
      assert xs == init + [last];
    }
  }

  /** What the reader of an item consumes is the encoding of what it returns. */
  ghost predicate Exact<T(!new)>(enc: T -> Bytes, item: Bytes -> Dec<T>) {
    forall b | item(b).Ok? :: b == enc(item(b).val) + item(b).rest
  }

  lemma {:induction false} ManyExact<T(!new)>(n: nat, b: Bytes, enc: T -> Bytes, item: Bytes -> Dec<T>)
    requires Exact(enc, item)
    ensures var r := ReadMany(n, b, item);
            r.Ok? ==> |r.val| == n && b == ManyBytes(r.val, enc) + r.rest
  {
    if n > 0 && ReadMany(n, b, item).Ok? {
      ManyExact(n - 1, b, enc, item);
      var r0, r := ReadMany(n - 1, b, item), ReadMany(n, b, item);
      assert item(r0.rest).Ok?;
      assert r.val[..n - 1] == r0.val;
    }
  }

  lemma LengthThenExact<T(!new)>(b: Bytes, enc: T -> Bytes, item: Bytes -> Dec<T>)
    requires Exact(enc, item)
    ensures var r := LengthThen(b, item);
            r.Ok? ==> |r.val| < U64_BOUND && b == IntBytes(|r.val|) + ManyBytes(r.val, enc) + r.rest
  {
    hide ReadMany, ManyBytes, IntBytes;
    IntExact(b);
    if LengthThen(b, item).Ok? {
      ManyExact(ReadInt(b).val, ReadInt(b).rest, enc, item);
    }
  }

  /** Once an item was bad, everything after it is. */
  lemma {:induction false} BadStays<T>(i: nat, n: nat, b: Bytes, item: Bytes -> Dec<T>)
    requires i <= n && ReadMany(i, b, item).Bad?
    ensures ReadMany(n, b, item).Bad?
  {
    if i < n {
      BadStays(i, n - 1, b, item);
    }
  }

  function LengthThen<T>(b0: Bytes, item: Bytes -> Dec<T>): Dec<seq<T>> {
    match ReadInt(b0)
    case Bad => Bad
    case Ok(n, b1) => ReadMany(n, b1, item)
  }

  lemma LengthThenRead<T(!new)>(xs: seq<T>, enc: T -> Bytes, item: Bytes -> Dec<T>, tail: Bytes)
    requires |xs| < U64_BOUND && forall x | x in xs :: Inverse(x, enc, item)
    ensures LengthThen(IntBytes(|xs|) + ManyBytes(xs, enc) + tail, item) == Ok(xs, tail)
  {
    assert IntBytes(|xs|) + ManyBytes(xs, enc) + tail == IntBytes(|xs|) + (ManyBytes(xs, enc) + tail);
    IntRead(|xs|, ManyBytes(xs, enc) + tail);
    ManyRead(xs, enc, item, tail);
  }

  // ---- nested slices

  type Slices2D = s: seq<Slice> | |s| < U64_BOUND
  type Slices3D = s: seq<Slices2D> | |s| < U64_BOUND

  const READ_SLICE: Bytes -> Dec<Slice> := b => ReadSlice1D(b)
  const WRITE_SLICE: Slice -> Bytes := s => SliceBytes(s)

  function Slice2DBytes(data: Slices2D): Bytes {
    IntBytes(|data|) + ManyBytes(data, WRITE_SLICE)
  }

  function ReadSlice2D(b0: Bytes): Dec<Slices2D> {
    match ReadInt(b0)
    case Bad => Bad
    case Ok(n, b1) => match ReadMany(n, b1, READ_SLICE) case Bad => Bad case Ok(xs, b2) => Ok(xs, b2)
  }

  const READ_SLICES: Bytes -> Dec<Slices2D> := b => ReadSlice2D(b)
  const WRITE_SLICES: Slices2D -> Bytes := s => Slice2DBytes(s)

  function Slice3DBytes(data: Slices3D): Bytes {
    IntBytes(|data|) + ManyBytes(data, WRITE_SLICES)
  }

  function ReadSlice3D(b0: Bytes): Dec<Slices3D> {
    match ReadInt(b0)
    case Bad => Bad
    case Ok(n, b1) => match ReadMany(n, b1, READ_SLICES) case Bad => Bad case Ok(xs, b2) => Ok(xs, b2)
  }

  /** Decoding an encoding, whatever follows it, gives the value and what follows. */
  lemma Slice2DRead(data: Slices2D, tail: Bytes)
    ensures ReadSlice2D(Slice2DBytes(data) + tail) == Ok(data, tail)
  {
    forall x: Slice, t: Bytes
      ensures READ_SLICE(WRITE_SLICE(x) + t) == Ok(x, t)
    {
      SliceRead(x, t);
    }
    LengthThenRead(data, WRITE_SLICE, READ_SLICE, tail);
  }

  lemma Slice3DRead(data: Slices3D, tail: Bytes)
    ensures ReadSlice3D(Slice3DBytes(data) + tail) == Ok(data, tail)
  {
    forall x: Slices2D, t: Bytes
      ensures READ_SLICES(WRITE_SLICES(x) + t) == Ok(x, t)
    {
      Slice2DRead(x, t);
    }
    LengthThenRead(data, WRITE_SLICES, READ_SLICES, tail);
  }

  lemma Slice1DExact()
    ensures Exact(WRITE_SLICE, READ_SLICE)
  {
    forall b | READ_SLICE(b).Ok?
      ensures b == WRITE_SLICE(READ_SLICE(b).val) + READ_SLICE(b).rest
    {
      SliceExact(b);
    }
  }

  /** Bytes that are read are exactly the encoding of the value, and the rest: all else is an error. */
  lemma Slice2DExact(b: Bytes)
    ensures ReadSlice2D(b).Ok? ==> b == Slice2DBytes(ReadSlice2D(b).val) + ReadSlice2D(b).rest
  {
    Slice1DExact();
    LengthThenExact(b, WRITE_SLICE, READ_SLICE);
  }

  lemma Slice3DExact(b: Bytes)
    ensures ReadSlice3D(b).Ok? ==> b == Slice3DBytes(ReadSlice3D(b).val) + ReadSlice3D(b).rest
  {
    forall b' | READ_SLICES(b').Ok?
      ensures b' == WRITE_SLICES(READ_SLICES(b').val) + READ_SLICES(b').rest
    {
      Slice2DExact(b');
    }
    LengthThenExact(b, WRITE_SLICES, READ_SLICES);
  }

  /** ReadSlice2D: after an error, the loop goes on over an empty buffer. */
  method ReadSlice2DLoop(b0: Bytes) returns (data0: Slices2D, b: Bytes, err: bool)
    ensures err <==> ReadSlice2D(b0).Bad?
    ensures !err ==> ReadSlice2D(b0) == Ok(data0, b)
    ensures err ==> data0 == [] && b == []
  {
    var d := ReadInt(b0);
    if d.Bad? {
      return [], [], true;
    }
    var length, b1 := d.val, d.rest;
    b := b1;
    data0 := [];
    var err0 := false;
    for i := 0 to length
      invariant err0 ==> ReadMany(i, b1, READ_SLICE).Bad?
      invariant if err0 then b == [] else ReadMany(i, b1, READ_SLICE) == Ok(data0, b)
    {
      var d1 := ReadSlice1D(b);
      if d1.Bad? {
        err0, b := true, [];
        continue;
      }
      b := d1.rest;
      data0 := data0 + [d1.val];
    }
    if err0 {
      return [], [], true;
    }
    return data0, b, false;
  }

  method WriteSlice2DLoop(b0: Bytes, data: Slices2D) returns (b: Bytes)
    ensures b == b0 + Slice2DBytes(data)
  {
    b := WriteInt(b0, |data|);
    for i := 0 to |data|
      invariant b == b0 + (IntBytes(|data|) + ManyBytes(data[..i], WRITE_SLICE))
    {
      ManyBytesStep(b0, IntBytes(|data|), data, i, WRITE_SLICE);
      b := WriteSlice1D(b, data[i]);
    }
    assert data[..|data|] == data;
  }

  method ReadSlice3DLoop(b0: Bytes) returns (data0: Slices3D, b: Bytes, err: bool)
    ensures err <==> ReadSlice3D(b0).Bad?
    ensures !err ==> ReadSlice3D(b0) == Ok(data0, b)
    ensures err ==> data0 == [] && b == []
  {
    var d := ReadInt(b0);
    if d.Bad? {
      return [], [], true;
    }
    var length, b1 := d.val, d.rest;
    b := b1;
    data0 := [];
    var err0 := false;
    for i := 0 to length
      invariant err0 ==> ReadMany(i, b1, READ_SLICES).Bad?
      invariant if err0 then b == [] else ReadMany(i, b1, READ_SLICES) == Ok(data0, b)
    {
      var data1, b2, err1 := ReadSlice2DLoop(b);
      b := b2;
      if err1 {
        err0 := true;
        continue;
      }
      data0 := data0 + [data1];
    }
    if err0 {
      return [], [], true;
    }
    return data0, b, false;
  }

  method WriteSlice3DLoop(b0: Bytes, data: Slices3D) returns (b: Bytes)
    ensures b == b0 + Slice3DBytes(data)
  {
    hide Slice2DBytes, IntBytes;
    b := WriteInt(b0, |data|);
    for i := 0 to |data|
      invariant b == b0 + (IntBytes(|data|) + ManyBytes(data[..i], WRITE_SLICES))
    {
      ManyBytesStep(b0, IntBytes(|data|), data, i, WRITE_SLICES);
      b := WriteSlice2DLoop(b, data[i]);
    }
    assert data[..|data|] == data;
  }

  // ---- slices of membership proofs

  /** A MembHide whose lengths fit their 8 bytes. */
  type MembHideMsg = o: MembHide | |o.labelProof| < U64_BOUND && |o.merkleProof| < U64_BOUND
    witness MembHide([], [], [])

  function MembHideBytes(o: MembHideMsg): Bytes {
    SliceBytes(o.labelProof) + (SliceBytes(o.mapVal) + SliceBytes(o.merkleProof))
  }

  function MembHideDecode(b0: Bytes): Dec<MembHideMsg> {
    match ReadSlice1D(b0) case Bad => Bad case Ok(a1, b1) =>
    match ReadSlice1D(b1) case Bad => Bad case Ok(a2, b2) =>
    match ReadSlice1D(b2) case Bad => Bad case Ok(a3, b3) =>
    Ok(MembHide(a1, a2, a3), b3)
  }

  const READ_MEMB_HIDE: Bytes -> Dec<MembHideMsg> := b => MembHideDecode(b)
  const WRITE_MEMB_HIDE: MembHideMsg -> Bytes := o => MembHideBytes(o)

  lemma MembHideRead(o: MembHideMsg, tail: Bytes)
    ensures MembHideDecode(MembHideBytes(o) + tail) == Ok(o, tail)
  {
    var rest2 := SliceBytes(o.merkleProof) + tail;
    var rest1 := SliceBytes(o.mapVal) + rest2;
    assert MembHideBytes(o) + tail == SliceBytes(o.labelProof) + rest1;
    SliceRead(o.labelProof, rest1);
    SliceRead(o.mapVal, rest2);
    SliceRead(o.merkleProof, tail);
  }

  method MembHideSlice1DEncode(b0: Bytes, o: seq<MembHideMsg>) returns (b: Bytes)
    requires |o| < U64_BOUND
    ensures b == b0 + (IntBytes(|o|) + ManyBytes(o, WRITE_MEMB_HIDE))
  {
    b := WriteInt(b0, |o|);
    for i := 0 to |o|
      invariant b == b0 + (IntBytes(|o|) + ManyBytes(o[..i], WRITE_MEMB_HIDE))
    {
      ManyBytesStep(b0, IntBytes(|o|), o, i, WRITE_MEMB_HIDE);
      b := b + MembHideBytes(o[i]);
    }
    assert o[..|o|] == o;
  }

  /** Leaves the loop at the first error. */
  method MembHideSlice1DDecode(b0: Bytes) returns (o: seq<MembHideMsg>, rest: Bytes, err: bool)
    ensures err <==> LengthThen(b0, READ_MEMB_HIDE).Bad?
    ensures !err ==> LengthThen(b0, READ_MEMB_HIDE) == Ok(o, rest)
  {
    hide MembHideDecode, ReadInt;
    var d := ReadInt(b0);
    if d.Bad? {
      return [], [], true;
    }
    var length, b1 := d.val, d.rest;
    var loopO, loopB, loopErr := [], b1, false;
    for i := 0 to length
      invariant !loopErr && ReadMany(i, b1, READ_MEMB_HIDE) == Ok(loopO, loopB)
    {
      var d2 := MembHideDecode(loopB);
      if d2.Bad? {
        BadStays(i + 1, length, b1, READ_MEMB_HIDE);
        loopErr := true;
        break;
      }
      loopB, loopO := d2.rest, loopO + [d2.val];
    }
    if loopErr {
      return [], [], true;
    }
    return loopO, loopB, false;
  }

  lemma MembHideSliceRead(o: seq<MembHideMsg>, tail: Bytes)
    requires |o| < U64_BOUND
    ensures LengthThen(IntBytes(|o|) + ManyBytes(o, WRITE_MEMB_HIDE) + tail, READ_MEMB_HIDE) == Ok(o, tail)
  {
    forall x: MembHideMsg, t: Bytes
      ensures READ_MEMB_HIDE(WRITE_MEMB_HIDE(x) + t) == Ok(x, t)
    {
      MembHideRead(x, t);
    }
    LengthThenRead(o, WRITE_MEMB_HIDE, READ_MEMB_HIDE, tail);
  }

  lemma MembHideSliceExact(b: Bytes)
    ensures var r := LengthThen(b, READ_MEMB_HIDE);
            r.Ok? ==> |r.val| < U64_BOUND && b == IntBytes(|r.val|) + ManyBytes(r.val, WRITE_MEMB_HIDE) + r.rest
  {
    forall b' | READ_MEMB_HIDE(b').Ok?
      ensures b' == WRITE_MEMB_HIDE(READ_MEMB_HIDE(b').val) + READ_MEMB_HIDE(b').rest
    {
      MembHideExact(b');
    }
    LengthThenExact(b, WRITE_MEMB_HIDE, READ_MEMB_HIDE);
  }

  lemma MembHideExact(b: Bytes)
    ensures MembHideDecode(b).Ok? ==> b == MembHideBytes(MembHideDecode(b).val) + MembHideDecode(b).rest
  {
    hide SliceBytes, ReadSlice1D;
    SliceExact(b);
    if ReadSlice1D(b).Ok? {
      var b1 := ReadSlice1D(b).rest;
      SliceExact(b1);
      if ReadSlice1D(b1).Ok? {
        SliceExact(ReadSlice1D(b1).rest);
      }
    }
  }

  // ---- maps from strings to byte slices

  type Updates = m: map<Slice, Slice> | |m| < U64_BOUND

  datatype Entry = Entry(key: Slice, val: Slice)

  function PairBytes(k: Slice, v: Slice): Bytes {
    SliceBytes(k) + SliceBytes(v)
  }

  function PairDecode(b0: Bytes): Dec<Entry> {
    match ReadSlice1D(b0) case Bad => Bad case Ok(a2, b1) =>
    match ReadSlice1D(b1) case Bad => Bad case Ok(a3, b2) =>
    Ok(Entry(a2, a3), b2)
  }

  const READ_PAIR: Bytes -> Dec<Entry> := b => PairDecode(b)
  const WRITE_PAIR: Entry -> Bytes := (e: Entry) => PairBytes(e.key, e.val)

  /** A later pair overwrites an earlier one with the same key. */
  function MapOfPairs(pairs: seq<Entry>): map<Slice, Slice> {
    if pairs == [] then map[] else MapOfPairs(pairs[..|pairs| - 1])[pairs[|pairs| - 1].key := pairs[|pairs| - 1].val]
  }

  /** The pairs list the map, each key once: an order in which a Go program may range over it. */
  ghost predicate Lists(pairs: seq<Entry>, o: map<Slice, Slice>) {
    |pairs| == |o| && MapOfPairs(pairs) == o
  }

  /** The length, and each entry of the map once, in some order. */
  ghost predicate EncodesMap(s: Bytes, o: Updates) {
    exists pairs :: Lists(pairs, o) && s == IntBytes(|o|) + ManyBytes(pairs, WRITE_PAIR)
  }

  function MapDecode(b0: Bytes): Dec<map<Slice, Slice>> {
    match LengthThen(b0, READ_PAIR)
    case Bad => Bad
    case Ok(pairs, b) => Ok(MapOfPairs(pairs), b)
  }

  /** Ranges over the map in an arbitrary order. */
  method MapstringSlbyteEncode(b0: Bytes, o: Updates) returns (b: Bytes)
    ensures b0 <= b && EncodesMap(b[|b0|..], o)
  {
    hide IntBytes, SliceBytes;
    b := WriteInt(b0, |o|);
    ghost var pairs: seq<Entry> := [];
    var todo := o;
    while todo != map[]
      invariant todo.Keys <= o.Keys && forall k | k in todo :: todo[k] == o[k]
      invariant |pairs| + |todo| == |o| && MapOfPairs(pairs) == o - todo.Keys
      invariant b == b0 + (IntBytes(|o|) + ManyBytes(pairs, WRITE_PAIR))
      decreases |todo|
    {
      var k :| k in todo;
      b := EncodeEntry(b0, b, o, todo, k, pairs);
      RestSmaller(todo, k);
      pairs := pairs + [Entry(k, todo[k])];
      todo := todo - {k};
    }
    assert o - {} == o;
    assert b[|b0|..] == IntBytes(|o|) + ManyBytes(pairs, WRITE_PAIR);
  }

  /** The loop body of MapstringSlbyteEncode. */
  method EncodeEntry(ghost b0: Bytes, b1: Bytes, ghost o: Updates, todo: map<Slice, Slice>, k: Slice,
                     ghost pairs: seq<Entry>)
    returns (b: Bytes)
    requires k in todo && todo.Keys <= o.Keys && todo[k] == o[k] && MapOfPairs(pairs) == o - todo.Keys
    requires b1 == b0 + (IntBytes(|o|) + ManyBytes(pairs, WRITE_PAIR))
    ensures var pairs' := pairs + [Entry(k, todo[k])];
            && MapOfPairs(pairs') == o - (todo - {k}).Keys
            && b == b0 + (IntBytes(|o|) + ManyBytes(pairs', WRITE_PAIR))
  {
    hide IntBytes, SliceBytes;
    var v := todo[k];
    b := WriteSlice1D(b1, k);
    b := WriteSlice1D(b, v);
    ghost var pairs' := pairs + [Entry(k, v)];
    assert pairs'[..|pairs|] == pairs && pairs'[..|pairs'|] == pairs';
    ManyBytesStep(b0, IntBytes(|o|), pairs', |pairs|, WRITE_PAIR);
    assert b1 + (SliceBytes(k) + SliceBytes(v)) == b;
    assert o - (todo - {k}).Keys == (o - todo.Keys)[k := v];
  }

  lemma RestSmaller(m: map<Slice, Slice>, k: Slice)
    requires k in m
    ensures (m - {k}).Keys == m.Keys - {k} && |m - {k}| == |m| - 1
  {
    assert |(m - {k}).Keys| == |m.Keys - {k}|;
  }

  method MapstringSlbyteDecode(b0: Bytes) returns (o: map<Slice, Slice>, rest: Bytes, err: bool)
    ensures err <==> MapDecode(b0).Bad?
    ensures !err ==> MapDecode(b0) == Ok(o, rest)
  {
    hide ReadInt, ReadSlice1D;
    var d := ReadInt(b0);
    if d.Bad? {
      return map[], [], true;
    }
    var length, b1 := d.val, d.rest;
    var loopO: map<Slice, Slice>, loopB, loopErr := map[], b1, false;
    ghost var pairs: seq<Entry> := [];
    for i := 0 to length
      invariant !loopErr && ReadMany(i, b1, READ_PAIR) == Ok(pairs, loopB) && loopO == MapOfPairs(pairs)
    {
      var d2 := ReadSlice1D(loopB);
      if d2.Bad? {
        BadStays(i + 1, length, b1, READ_PAIR);
        loopErr := true;
        break;
      }
      var d3 := ReadSlice1D(d2.rest);
      if d3.Bad? {
        BadStays(i + 1, length, b1, READ_PAIR);
        loopErr := true;
        break;
      }
      loopB, loopO := d3.rest, loopO[d2.val := d3.val];
      ghost var pairs' := pairs + [Entry(d2.val, d3.val)];
      assert pairs'[..|pairs|] == pairs;
      pairs := pairs';
    }
    if loopErr {
      return map[], [], true;
    }
    return loopO, loopB, false;
  }

  /** Whatever order the encoder ranged over the map in, decoding gives the map back. */
  lemma MapRead(s: Bytes, o: Updates, tail: Bytes)
    requires EncodesMap(s, o)
    ensures MapDecode(s + tail) == Ok(o, tail)
  {
    var pairs :| Lists(pairs, o) && s == IntBytes(|o|) + ManyBytes(pairs, WRITE_PAIR);
    forall x: Entry, t: Bytes
      ensures READ_PAIR(WRITE_PAIR(x) + t) == Ok(x, t)
    {
      assert PairBytes(x.key, x.val) + t == SliceBytes(x.key) + (SliceBytes(x.val) + t);
      SliceRead(x.key, SliceBytes(x.val) + t);
      SliceRead(x.val, t);
    }
    LengthThenRead(pairs, WRITE_PAIR, READ_PAIR, tail);
  }

  /** Whatever bytes are decoded: they are a length and so many pairs, and the value of a key is that of
      the last pair that has it. */
  lemma MapExact(b: Bytes) returns (pairs: seq<Entry>)
    requires MapDecode(b).Ok?
    ensures |pairs| < U64_BOUND && b == IntBytes(|pairs|) + ManyBytes(pairs, WRITE_PAIR) + MapDecode(b).rest
    ensures forall k :: k in MapDecode(b).val <==> exists i: nat :: i < |pairs| && pairs[i].key == k
    ensures forall i: nat | i < |pairs| && LastOf(pairs, i) :: MapDecode(b).val[pairs[i].key] == pairs[i].val
  {
    hide ManyBytes, IntBytes;
    forall b' | READ_PAIR(b').Ok?
      ensures b' == WRITE_PAIR(READ_PAIR(b').val) + READ_PAIR(b').rest
    {
      PairExact(b');
    }
    LengthThenExact(b, WRITE_PAIR, READ_PAIR);
    pairs := LengthThen(b, READ_PAIR).val;
    forall k
      ensures k in MapDecode(b).val <==> exists i: nat :: i < |pairs| && pairs[i].key == k
    {
      PairKeys(pairs, k);
    }
    forall i: nat | i < |pairs| && LastOf(pairs, i)
      ensures MapDecode(b).val[pairs[i].key] == pairs[i].val
    {
      LastPairWins(pairs, i);
    }
  }

  /** No later pair has the key of pair i. */
  predicate LastOf(pairs: seq<Entry>, i: nat)
    requires i < |pairs|
  {
    forall j: nat | i < j < |pairs| :: pairs[j].key != pairs[i].key
  }

  lemma {:induction false} PairKeys(pairs: seq<Entry>, k: Slice)
    ensures k in MapOfPairs(pairs) <==> exists i: nat :: i < |pairs| && pairs[i].key == k
  {
    if pairs != [] {
      var n := |pairs| - 1;
      PairKeys(pairs[..n], k);
      if pairs[n].key != k && k in MapOfPairs(pairs) {
        var i: nat :| i < n && pairs[..n][i].key == k;
        assert pairs[i].key == k;
      }
      if i: nat :| i < n && pairs[i].key == k {
        assert pairs[..n][i].key == k;
      }
    }
  }

  lemma {:induction false} LastPairWins(pairs: seq<Entry>, i: nat)
    requires i < |pairs| && LastOf(pairs, i)
    ensures pairs[i].key in MapOfPairs(pairs) && MapOfPairs(pairs)[pairs[i].key] == pairs[i].val
  {
    var n := |pairs| - 1;
    if i < n {
      LastPairWins(pairs[..n], i);
    }
  }

  lemma PairExact(b: Bytes)
    ensures PairDecode(b).Ok? ==> b == PairBytes(PairDecode(b).val.key, PairDecode(b).val.val) + PairDecode(b).rest
  {
    hide SliceBytes, ReadSlice1D;
    SliceExact(b);
    if ReadSlice1D(b).Ok? {
      SliceExact(ReadSlice1D(b).rest);
    }
  }
}
