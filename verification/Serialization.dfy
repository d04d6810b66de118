/**
 The typed serialization of ext/dlib/serialize.h on top of the integer format:
 bytes, booleans, floats, pairs, vectors, strings, sets and maps, nested in any
 way. `Ser` and `Deser` are the format, `Serialize` and `Deserialize` the
 stream loops proved to produce and consume it.
 */
module Serialization {
  import opened IntegerCodec
  import FloatDetails

  /** The type a reader asks for. */
  datatype Schema =
    | Int(t: IntType)
    | Char
    | Bool
    | Float
    | Pair(first: Schema, second: Schema)
    | Vector(elem: Schema)
    | Str
    | Set(elem: Schema)
    | Map(key: Schema, val: Schema)

  /**
   What a caller asks for. The overload for vectors of chars is declared after
   the bodies of the containers, which therefore read a vector of chars inside
   them like any other vector, char by char: its shortcut is taken only when
   such a vector is asked for directly.
   */
  datatype Request = Typed(s: Schema) | CharVector

  /** Sets are listed in ascending order, maps as pairs in ascending order of their keys. */
  datatype Value =
    | IntV(i: int)
    | CharV(b: Byte)
    | BoolV(v: bool)
    | FloatV(d: FloatDetails.Details)
    | PairV(fst: Value, snd: Value)
    | ListV(items: seq<Value>)
    | StrV(chars: seq<Byte>)

  /** The comparison the ordered containers are declared with. */
  type Order = (Value, Value) -> bool

  const SIZE_TYPE := IntType(false, 8)
  const MANTISSA_TYPE := IntType(true, 8)
  const EXPONENT_TYPE := IntType(true, 2)

  ghost predicate Ascending(less: Order, xs: seq<Value>) {
    forall i, j | 0 <= i < j < |xs| :: less(xs[i], xs[j]) && !less(xs[j], xs[i])
  }

  function Keys(ps: seq<Value>): (ks: seq<Value>)
    ensures |ks| == |ps|
  {
    seq(|ps|, i requires 0 <= i < |ps| => if ps[i].PairV? then ps[i].fst else ps[i])
  }

  /** v is a value of the type s: integers in range, sizes and order as the containers have them. */
  ghost predicate HasType(less: Order, s: Schema, v: Value)
    decreases v
  {
    match s
    case Int(t) => v.IntV? && ValidType(t) && InRange(t, v.i)
    case Char => v.CharV?
    case Bool => v.BoolV?
    case Float => v.FloatV? && InRange(MANTISSA_TYPE, v.d.mantissa) && InRange(EXPONENT_TYPE, v.d.exponent)
    case Pair(a, b) => v.PairV? && HasType(less, a, v.fst) && HasType(less, b, v.snd)
    case Vector(e) =>
      v.ListV? && |v.items| < LIMIT && forall i | 0 <= i < |v.items| :: HasType(less, e, v.items[i])
    case Str => v.StrV? && |v.chars| < LIMIT
    case Set(e) =>
      && v.ListV? && |v.items| < LIMIT && Ascending(less, v.items)
      && forall i | 0 <= i < |v.items| :: HasType(less, e, v.items[i])
    case Map(k, e) =>
      && v.ListV? && |v.items| < LIMIT && Ascending(less, Keys(v.items))
      && forall i | 0 <= i < |v.items| ::
           v.items[i].PairV? && HasType(less, k, v.items[i].fst) && HasType(less, e, v.items[i].snd)
  }

  /** Every integer and every size fits eight bytes, so that v can be written at all. */
  predicate Writable(v: Value) {
    match v
    case IntV(i) => Encodable(i)
    case CharV(_) => true
    case BoolV(_) => true
    case FloatV(d) => Encodable(d.mantissa) && Encodable(d.exponent)
    case PairV(a, b) => Writable(a) && Writable(b)
    case ListV(items) => |items| < LIMIT && forall i | 0 <= i < |items| :: Writable(items[i])
    case StrV(chars) => |chars| < LIMIT
  }

  // ------------------------------------------------------------------ format

  function Ser(v: Value): seq<Byte>
    requires Writable(v)
    decreases v
  {
    match v
    case IntV(i) => Encode(i)
    case CharV(b) => [b]
    case BoolV(b) => [if b then '1' as int else '0' as int]
    case FloatV(d) => Encode(d.mantissa) + Encode(d.exponent)
    case PairV(a, b) => Ser(a) + Ser(b)
    case ListV(items) => Encode(|items|) + SerAll(items)
    case StrV(chars) => Encode(|chars|) + chars
  }

  function SerAll(vs: seq<Value>): seq<Byte>
    requires forall i | 0 <= i < |vs| :: Writable(vs[i])
    decreases vs
  {
    if vs == [] then [] else Ser(vs[0]) + SerAll(vs[1..])
  }

  function Size(s: Schema): nat {
    match s
    case Pair(a, b) => 1 + Size(a) + Size(b)
    case Vector(e) => 1 + Size(e)
    case Set(e) => 1 + Size(e)
    case Map(k, e) => 2 + Size(k) + Size(e)
    case _ => 0
  }

  /** std::set::insert: an equivalent element stays. */
  function Insert(less: Order, xs: seq<Value>, x: Value): seq<Value> {
    if xs == [] then [x]
    else if less(x, xs[0]) then [x] + xs
    else if less(xs[0], x) then [xs[0]] + Insert(less, xs[1..], x)
    else xs
  }

  /** item[key] = value: an equivalent key keeps its place and gets the new value. */
  function Assign(less: Order, ps: seq<Value>, p: Value): seq<Value>
    requires p.PairV?
  {
    if ps == [] then [p]
    else if !ps[0].PairV? then ps
    else if less(p.fst, ps[0].fst) then [p] + ps
    else if less(ps[0].fst, p.fst) then [ps[0]] + Assign(less, ps[1..], p)
    else [PairV(ps[0].fst, p.snd)] + ps[1..]
  }

  /** How one more element joins what the container holds so far. */
  function Join(less: Order, s: Schema, xs: seq<Value>, x: Value): seq<Value> {
    match s
    case Set(_) => Insert(less, xs, x)
    case Map(_, _) => if x.PairV? then Assign(less, xs, x) else xs
    case _ => xs + [x]
  }

  function ElementOf(s: Schema): Schema
    requires s.Vector? || s.Set? || s.Map?
  {
    match s
    case Vector(e) => e
    case Set(e) => e
    case Map(k, e) => Pair(k, e)
  }

  /** The test for the binary format: the bits 0x70 of the first byte are clear. */
  predicate BinaryFormat(s: seq<Byte>) {
    s != [] && s[0] % 128 < 16
  }

  function DeserDetails(bytes: seq<Byte>): Result<Value> {
    var (m, rest) :- Decode(MANTISSA_TYPE, bytes);
    var (e, rest') :- Decode(EXPONENT_TYPE, rest);
    Success(FloatV(FloatDetails.Details(m, e)), rest')
  }

  function Deser(less: Order, s: Schema, bytes: seq<Byte>): Result<Value>
    decreases Size(s), 0
  {
    match s
    case Int(t) =>
      var (i, rest) :- Decode(t, bytes);
      Success(IntV(i), rest)
    case Char => if bytes == [] then Failure else Success(CharV(bytes[0]), bytes[1..])
    case Bool =>
      if bytes == [] then Failure
      else if bytes[0] == '1' as int then Success(BoolV(true), bytes[1..])
      else if bytes[0] == '0' as int then Success(BoolV(false), bytes[1..])
      else Failure
    case Float => if BinaryFormat(bytes) then DeserDetails(bytes) else Failure
    case Pair(a, b) =>
      var (x, rest) :- Deser(less, a, bytes);
      var (y, rest') :- Deser(less, b, rest);
      Success(PairV(x, y), rest')
    case Str =>
      var (n, rest) :- Decode(SIZE_TYPE, bytes);
      if |rest| < n then Failure else Success(StrV(rest[..n]), rest[n..])
    case _ =>
      var (n, rest) :- Decode(SIZE_TYPE, bytes);
      var (xs, rest') :- ReadMany(Reader(less, ElementOf(s)), Joiner(less, s), n, [], rest);
      Success(ListV(xs), rest')
  }

  function Reader(less: Order, s: Schema): (read: seq<Byte> -> Result<Value>)
    decreases Size(s), 1
  {
    bytes => Deser(less, s, bytes)
  }

  ghost predicate HasRequestedType(less: Order, q: Request, v: Value) {
    match q
    case Typed(s) => HasType(less, s, v)
    case CharVector => v.StrV? && |v.chars| < LIMIT
  }

  /** Directly asked for, a vector of chars is read without a look at the stream's state. */
  function DeserRequest(less: Order, q: Request, bytes: seq<Byte>): Result<Value> {
    match q
    case Typed(s) => Deser(less, s, bytes)
    case CharVector =>
      var (n, rest) :- Decode(SIZE_TYPE, bytes);
      var k := if |rest| < n then |rest| else n;
      Success(StrV(rest[..k] + seq(n - k, i => 0)), rest[k..])
  }

  function Joiner(less: Order, s: Schema): (join: (seq<Value>, Value) -> seq<Value>) {
    (xs, x) => Join(less, s, xs, x)
  }

  /** Reads n more elements into a container that holds xs so far. */
  function ReadMany(read: seq<Byte> -> Result<Value>, join: (seq<Value>, Value) -> seq<Value>, n: nat,
                    xs: seq<Value>, bytes: seq<Byte>): Result<seq<Value>>
  {
    if n == 0 then Success(xs, bytes)
    else
      var (x, rest) :- read(bytes);
      ReadMany(read, join, n - 1, join(xs, x), rest)
  }

  // ------------------------------------------------------------------ layout

  /** A value's bytes are its parts' bytes one after the other, containers' after their size. */
  lemma Layout(a: Value, b: Value, d: FloatDetails.Details, c: Byte, chars: seq<Byte>)
    requires Writable(a) && Writable(b) && Writable(FloatV(d)) && |chars| < LIMIT
    ensures Ser(PairV(a, b)) == Ser(a) + Ser(b)
    ensures Ser(BoolV(true)) == [49] && Ser(BoolV(false)) == [48] && Ser(CharV(c)) == [c]
    ensures Ser(FloatV(d)) == Ser(IntV(d.mantissa)) + Ser(IntV(d.exponent))
    ensures Ser(StrV(chars)) == Ser(IntV(|chars|)) + chars
  {
  }

  /** The elements of a container, in order. */
  function Joined(parts: seq<seq<Byte>>): seq<Byte> {
    if parts == [] then [] else Joined(parts[..|parts| - 1]) + parts[|parts| - 1]
  }

  function Parts(items: seq<Value>): (parts: seq<seq<Byte>>)
    requires forall i | 0 <= i < |items| :: Writable(items[i])
    ensures |parts| == |items|
  {
    seq(|items|, i requires 0 <= i < |items| => Ser(items[i]))
  }

  lemma {:induction false} SerAllJoins(items: seq<Value>, n: nat)
    requires n <= |items| && forall i | 0 <= i < |items| :: Writable(items[i])
    ensures SerAll(items[..n]) == Joined(Parts(items)[..n])
  {
    if n > 0 {
      SerAllJoins(items, n - 1);
      SerAllSnoc(items, n - 1);
      assert Parts(items)[..n][..n - 1] == Parts(items)[..n - 1];
    }
  }

  lemma ContainerLayout(items: seq<Value>)
    requires Writable(ListV(items))
    ensures Ser(ListV(items)) == Ser(IntV(|items|)) + Joined(Parts(items))
  {
    SerAllJoins(items, |items|);
    assert items[..|items|] == items && Parts(items)[..|items|] == Parts(items);
  }

  /** A boolean is one of two characters; anything else is rejected, with whatever follows left alone. */
  lemma BoolReaderLaw(less: Order, c: Byte, rest: seq<Byte>)
    ensures var r := Deser(less, Bool, [c] + rest);
      && (r.Success? <==> c == 48 || c == 49)
      && (r.Success? ==> r == Success(BoolV(c == 49), rest))
  {
    assert ([c] + rest)[1..] == rest;
  }

  /** The binary format is taken exactly if the three bits of 0x70 are clear. */
  lemma BinaryFormatBits(s: seq<Byte>)
    ensures BinaryFormat(s) <==>
            s != [] && (s[0] / 16) % 2 == 0 && (s[0] / 32) % 2 == 0 && (s[0] / 64) % 2 == 0
  {
  }

  // -------------------------------------------------- elements out of order

  ghost predicate WeakOrder(less: Order) {
    && (forall x, y :: less(x, y) ==> !less(y, x))
    && (forall x, y, z :: !less(y, x) && !less(z, y) ==> !less(z, x))
  }

  predicate Equivalent(less: Order, x: Value, y: Value) {
    !less(x, y) && !less(y, x)
  }

  lemma BeforeAllOfAscending(less: Order, xs: seq<Value>, x: Value, k: nat)
    requires WeakOrder(less) && Ascending(less, xs) && k < |xs| && less(x, xs[0])
    ensures less(x, xs[k]) && !less(xs[k], x)
  {
    assert k > 0 ==> less(xs[0], xs[k]) && !less(xs[k], xs[0]);
  }

  /** An element with an equivalent one in the set is dropped. */
  lemma {:induction false} InsertDropsEquivalent(less: Order, xs: seq<Value>, x: Value, k: nat)
    requires WeakOrder(less) && Ascending(less, xs) && k < |xs| && Equivalent(less, xs[k], x)
    ensures Insert(less, xs, x) == xs
  {
    if less(x, xs[0]) {
      BeforeAllOfAscending(less, xs, x, k);
    } else if less(xs[0], x) {
      InsertDropsEquivalent(less, xs[1..], x, k - 1);
    }
  }

  /** Any other is added. */
  lemma {:induction false} InsertAddsNew(less: Order, xs: seq<Value>, x: Value)
    requires forall k | 0 <= k < |xs| :: !Equivalent(less, xs[k], x)
    ensures multiset(Insert(less, xs, x)) == multiset(xs) + multiset{x}
  {
    if xs != [] {
      assert !Equivalent(less, xs[0], x);
      assert xs == [xs[0]] + xs[1..];
      if !less(x, xs[0]) {
        InsertAddsNew(less, xs[1..], x);
      }
    }
  }

  lemma {:induction false} InsertedFromEither(less: Order, xs: seq<Value>, x: Value)
    ensures forall y | y in Insert(less, xs, x) :: y == x || y in xs
  {
    if xs != [] {
      InsertedFromEither(less, xs[1..], x);
    }
  }

  lemma AscendingFrom(less: Order, x: Value, xs: seq<Value>)
    requires Ascending(less, xs) && forall j | 0 <= j < |xs| :: less(x, xs[j]) && !less(xs[j], x)
    ensures Ascending(less, [x] + xs)
  {
  }

  /** Either way the set stays in order. */
  lemma {:induction false} InsertKeepsOrder(less: Order, xs: seq<Value>, x: Value)
    requires WeakOrder(less) && Ascending(less, xs)
    ensures Ascending(less, Insert(less, xs, x))
  {
    if xs != [] {
      if less(x, xs[0]) {
        forall j | 0 <= j < |xs| ensures less(x, xs[j]) && !less(xs[j], x) {
          BeforeAllOfAscending(less, xs, x, j);
        }
        AscendingFrom(less, x, xs);
      } else if less(xs[0], x) {
        var r := Insert(less, xs[1..], x);
        InsertKeepsOrder(less, xs[1..], x);
        InsertedFromEither(less, xs[1..], x);
        forall j | 0 <= j < |r| ensures less(xs[0], r[j]) && !less(r[j], xs[0]) {
          assert r[j] == x || r[j] in xs[1..];
        }
        AscendingFrom(less, xs[0], r);
      }
    }
  }

  /** An entry read into a map finds its place by its key; an equivalent key keeps its place and gets the new value. */
  lemma {:induction false} AssignReplaces(less: Order, ps: seq<Value>, p: Value, k: nat)
    requires WeakOrder(less) && Ascending(less, Keys(ps)) && k < |ps| && p.PairV?
    requires (forall i | 0 <= i < |ps| :: ps[i].PairV?) && Equivalent(less, ps[k].fst, p.fst)
    ensures Assign(less, ps, p) == ps[k := PairV(ps[k].fst, p.snd)]
  {
    assert Keys(ps)[0] == ps[0].fst && Keys(ps)[k] == ps[k].fst;
    if k > 0 {
      assert less(Keys(ps)[0], Keys(ps)[k]) && !less(Keys(ps)[k], Keys(ps)[0]);
      assert Keys(ps)[1..] == Keys(ps[1..]);
      AssignReplaces(less, ps[1..], p, k - 1);
    }
  }

  lemma {:induction false} AssignAddsNew(less: Order, ps: seq<Value>, p: Value)
    requires p.PairV?
    requires forall k | 0 <= k < |ps| :: ps[k].PairV? && !Equivalent(less, ps[k].fst, p.fst)
    ensures multiset(Assign(less, ps, p)) == multiset(ps) + multiset{p}
  {
    if ps != [] {
      assert ps[0].PairV? && !Equivalent(less, ps[0].fst, p.fst);
      assert ps == [ps[0]] + ps[1..];
      if !less(p.fst, ps[0].fst) {
        AssignAddsNew(less, ps[1..], p);
      }
    }
  }

  // -------------------------------------------------------------- round trip

  lemma Regroup<T>(a: seq<T>, b: seq<T>, c: seq<T>)
    ensures a + b + c == a + (b + c)
  {
  }

  lemma {:induction false} TypedIsWritable(less: Order, s: Schema, v: Value)
    requires HasType(less, s, v)
    ensures Writable(v)
    decreases v
  {
    match s
    case Int(t) => RangeIsEncodable(t, v.i);
    case Float =>
      RangeIsEncodable(MANTISSA_TYPE, v.d.mantissa);
      RangeIsEncodable(EXPONENT_TYPE, v.d.exponent);
    case Pair(a, b) =>
      TypedIsWritable(less, a, v.fst);
      TypedIsWritable(less, b, v.snd);
    case Vector(e) =>
      forall i | 0 <= i < |v.items| ensures Writable(v.items[i]) {
        TypedIsWritable(less, e, v.items[i]);
      }
    case Set(e) =>
      forall i | 0 <= i < |v.items| ensures Writable(v.items[i]) {
        TypedIsWritable(less, e, v.items[i]);
      }
    case Map(k, e) =>
      forall i | 0 <= i < |v.items| ensures Writable(v.items[i]) {
        TypedIsWritable(less, k, v.items[i].fst);
        TypedIsWritable(less, e, v.items[i].snd);
      }
    case _ =>
  }

  /** Elements arriving in ascending order join a set at its end. */
  lemma {:induction false} InsertAppends(less: Order, xs: seq<Value>, x: Value)
    requires forall i | 0 <= i < |xs| :: less(xs[i], x) && !less(x, xs[i])
    ensures Insert(less, xs, x) == xs + [x]
  {
    if xs != [] {
      InsertAppends(less, xs[1..], x);
    }
  }

  /** So do entries arriving in ascending order of their keys. */
  lemma {:induction false} AssignAppends(less: Order, ps: seq<Value>, p: Value)
    requires p.PairV? && forall i | 0 <= i < |ps| :: ps[i].PairV? && less(ps[i].fst, p.fst) && !less(p.fst, ps[i].fst)
    ensures Assign(less, ps, p) == ps + [p]
  {
    if ps != [] {
      AssignAppends(less, ps[1..], p);
    }
  }

  lemma JoinAppends(less: Order, s: Schema, items: seq<Value>, k: nat)
    requires s.Vector? || s.Set? || s.Map?
    requires HasType(less, s, ListV(items)) && k < |items|
    ensures Join(less, s, items[..k], items[k]) == items[..k + 1]
    ensures HasType(less, ElementOf(s), items[k])
  {
    assert items[..k + 1] == items[..k] + [items[k]];
    match s
    case Set(_) => InsertAppends(less, items[..k], items[k]);
    case Map(_, _) =>
      forall i | 0 <= i < k
        ensures less(items[i].fst, items[k].fst) && !less(items[k].fst, items[i].fst)
      {
        assert less(Keys(items)[i], Keys(items)[k]) && !less(Keys(items)[k], Keys(items)[i]);
      }
      AssignAppends(less, items[..k], items[k]);
    case _ =>
  }

  lemma SizeRoundTrip(n: nat, rest: seq<Byte>)
    requires n < LIMIT
    ensures Decode(SIZE_TYPE, Encode(n) + rest) == Success(n, rest)
  {
    LimitIsPower();
    RoundTripIffInRange(SIZE_TYPE, n, rest);
  }

  /**
   Reading what was written, followed by anything, yields the value and leaves
   exactly what followed: for every type, however deeply nested. The reader's
   integer types need not be the writer's.
   */
  lemma {:induction false} RoundTrip(less: Order, s: Schema, v: Value, rest: seq<Byte>)
    requires HasType(less, s, v)
    ensures Writable(v) && Deser(less, s, Ser(v) + rest) == Success(v, rest)
    decreases v, 1, 0
  {
    TypedIsWritable(less, s, v);
    match s
    case Int(t) => RoundTripIffInRange(t, v.i, rest);
    case Float => FloatRoundTrip(less, v, rest);
    case Pair(a, b) =>
      Regroup(Ser(v.fst), Ser(v.snd), rest);
      RoundTrip(less, a, v.fst, Ser(v.snd) + rest);
      RoundTrip(less, b, v.snd, rest);
    case Str => StringRoundTrip(less, v, rest);
    case Vector(_) => ListRoundTrip(less, s, v, rest);
    case Set(_) => ListRoundTrip(less, s, v, rest);
    case Map(_, _) => ListRoundTrip(less, s, v, rest);
    case _ =>
  }

  lemma DetailsRoundTrip(m: int, e: int, rest: seq<Byte>)
    requires InRange(MANTISSA_TYPE, m) && InRange(EXPONENT_TYPE, e)
    ensures Encodable(m) && Encodable(e)
    ensures DeserDetails(Encode(m) + (Encode(e) + rest)) == Success(FloatV(FloatDetails.Details(m, e)), rest)
  {
    RangeIsEncodable(MANTISSA_TYPE, m);
    RangeIsEncodable(EXPONENT_TYPE, e);
    RoundTripIffInRange(MANTISSA_TYPE, m, Encode(e) + rest);
    RoundTripIffInRange(EXPONENT_TYPE, e, rest);
  }

  /** A written float starts with a control byte, whose bits 0x70 are clear: the reader takes the binary format. */
  lemma FloatsAreBinary(m: int, rest: seq<Byte>)
    requires Encodable(m)
    ensures BinaryFormat(Encode(m) + rest)
  {
    EncodedLayout(m, rest);
  }

  lemma FloatRoundTrip(less: Order, v: Value, rest: seq<Byte>)
    requires HasType(less, Float, v)
    ensures Writable(v) && Deser(less, Float, Ser(v) + rest) == Success(v, rest)
  {
    var m, e := v.d.mantissa, v.d.exponent;
    DetailsRoundTrip(m, e, rest);
    FloatsAreBinary(m, Encode(e) + rest);
    Regroup(Encode(m), Encode(e), rest);
  }

  lemma StringRoundTrip(less: Order, v: Value, rest: seq<Byte>)
    requires HasType(less, Str, v)
    ensures Writable(v) && Deser(less, Str, Ser(v) + rest) == Success(v, rest)
  {
    var n := |v.chars|;
    SizeRoundTrip(n, v.chars + rest);
    Regroup(Encode(n), v.chars, rest);
    assert (v.chars + rest)[..n] == v.chars && (v.chars + rest)[n..] == rest;
  }

  lemma CharVectorRoundTrip(less: Order, chars: seq<Byte>, rest: seq<Byte>)
    requires |chars| < LIMIT
    ensures DeserRequest(less, CharVector, Ser(StrV(chars)) + rest) == Success(StrV(chars), rest)
  {
    var n := |chars|;
    SizeRoundTrip(n, chars + rest);
    Regroup(Encode(n), chars, rest);
    assert (chars + rest)[..n] == chars && (chars + rest)[n..] == rest;
    assert chars + seq(0, i => 0) == chars;
  }

  /** Whatever is asked for, reading what was written gives the value and exactly what follows it. */
  lemma RequestRoundTrip(less: Order, q: Request, v: Value, rest: seq<Byte>)
    requires HasRequestedType(less, q, v)
    ensures Writable(v) && DeserRequest(less, q, Ser(v) + rest) == Success(v, rest)
  {
    match q
    case Typed(s) => RoundTrip(less, s, v, rest);
    case CharVector => CharVectorRoundTrip(less, v.chars, rest);
  }

  /** A vector of chars inside another type: a list of single chars. */
  function CharItems(chars: seq<Byte>): (items: seq<Value>)
    ensures |items| == |chars|
  {
    seq(|chars|, i requires 0 <= i < |chars| => CharV(chars[i]))
  }

  lemma {:induction false} CharItemsBytes(chars: seq<Byte>)
    ensures SerAll(CharItems(chars)) == chars
  {
    if chars != [] {
      assert CharItems(chars)[1..] == CharItems(chars[1..]);
      CharItemsBytes(chars[1..]);
    }
  }

  /** Strings, vectors of chars asked for directly and those inside other types share their bytes. */
  lemma SameBytesForChars(chars: seq<Byte>)
    requires |chars| < LIMIT
    ensures Ser(ListV(CharItems(chars))) == Ser(StrV(chars))
  {
    CharItemsBytes(chars);
  }

  lemma {:induction false} ListRoundTrip(less: Order, s: Schema, v: Value, rest: seq<Byte>)
    requires (s.Vector? || s.Set? || s.Map?) && HasType(less, s, v)
    ensures Writable(v) && Deser(less, s, Ser(v) + rest) == Success(v, rest)
    decreases v, 0, 1
  {
    TypedIsWritable(less, s, v);
    var items, read, join := v.items, Reader(less, ElementOf(s)), Joiner(less, s);
    Regroup(Encode(|items|), SerAll(items), rest);
    SizeRoundTrip(|items|, SerAll(items) + rest);
    forall k | 0 <= k < |items| ensures join(items[..k], items[k]) == items[..k + 1] {
      JoinAppends(less, s, items, k);
    }
    forall k, more | 0 <= k < |items| ensures read(Ser(items[k]) + more) == Success(items[k], more) {
      JoinAppends(less, s, items, k);
      RoundTrip(less, ElementOf(s), items[k], more);
    }
    assert items[0..] == items && items[..0] == [];
    ItemsRoundTrip(read, join, items, 0, rest);
  }

  /** A reader that gives back every item, and a container that takes them in order, give back all of them. */
  lemma {:induction false} ItemsRoundTrip(read: seq<Byte> -> Result<Value>,
                                          join: (seq<Value>, Value) -> seq<Value>,
                                          items: seq<Value>, k: nat, rest: seq<Byte>)
    requires k <= |items| && forall i | 0 <= i < |items| :: Writable(items[i])
    requires forall i | 0 <= i < |items| :: join(items[..i], items[i]) == items[..i + 1]
    requires forall i, more | 0 <= i < |items| :: read(Ser(items[i]) + more) == Success(items[i], more)
    ensures ReadMany(read, join, |items| - k, items[..k], SerAll(items[k..]) + rest) == Success(items, rest)
    decreases |items| - k
  {
    if k == |items| {
      assert items[..k] == items && SerAll(items[k..]) + rest == rest;
    } else {
      assert items[k..][1..] == items[k + 1..];
      Regroup(Ser(items[k]), SerAll(items[k + 1..]), rest);
      ItemsRoundTrip(read, join, items, k + 1, rest);
    }
  }

  // -------------------------------------------------------------- truncation

  /** A successful read looks at no byte beyond those it consumes. */
  lemma {:induction false} DeserExtends(less: Order, s: Schema, bytes: seq<Byte>, more: seq<Byte>)
    requires Deser(less, s, bytes).Success?
    ensures Deser(less, s, bytes + more) ==
            Success(Deser(less, s, bytes).value, Deser(less, s, bytes).rest + more)
    decreases Size(s), 1, 0
  {
    match s
    case Int(t) => DecodeExtends(t, bytes, more);
    case Float => DetailsExtend(bytes, more);
    case Pair(a, b) =>
      DeserExtends(less, a, bytes, more);
      DeserExtends(less, b, Deser(less, a, bytes).rest, more);
    case Str => StringExtends(less, bytes, more);
    case Vector(_) => ContainerExtends(less, s, bytes, more);
    case Set(_) => ContainerExtends(less, s, bytes, more);
    case Map(_, _) => ContainerExtends(less, s, bytes, more);
    case Char => assert (bytes + more)[1..] == bytes[1..] + more;
    case Bool => assert (bytes + more)[1..] == bytes[1..] + more;
  }

  lemma DetailsExtend(bytes: seq<Byte>, more: seq<Byte>)
    requires DeserDetails(bytes).Success?
    ensures DeserDetails(bytes + more) == Success(DeserDetails(bytes).value, DeserDetails(bytes).rest + more)
  {
    DecodeExtends(MANTISSA_TYPE, bytes, more);
    DecodeExtends(EXPONENT_TYPE, Decode(MANTISSA_TYPE, bytes).rest, more);
  }

  lemma StringExtends(less: Order, bytes: seq<Byte>, more: seq<Byte>)
    requires Deser(less, Str, bytes).Success?
    ensures Deser(less, Str, bytes + more) ==
            Success(Deser(less, Str, bytes).value, Deser(less, Str, bytes).rest + more)
  {
    DecodeExtends(SIZE_TYPE, bytes, more);
    var d := Decode(SIZE_TYPE, bytes);
    assert (d.rest + more)[..d.value] == d.rest[..d.value];
    assert (d.rest + more)[d.value..] == d.rest[d.value..] + more;
  }

  lemma {:induction false} ContainerExtends(less: Order, s: Schema, bytes: seq<Byte>, more: seq<Byte>)
    requires s.Vector? || s.Set? || s.Map?
    requires Deser(less, s, bytes).Success?
    ensures Deser(less, s, bytes + more) ==
            Success(Deser(less, s, bytes).value, Deser(less, s, bytes).rest + more)
    decreases Size(s), 0, 0
  {
    DecodeExtends(SIZE_TYPE, bytes, more);
    var d, read := Decode(SIZE_TYPE, bytes), Reader(less, ElementOf(s));
    forall bs, bs' | read(bs).Success?
      ensures read(bs + bs') == Success(read(bs).value, read(bs).rest + bs')
    {
      DeserExtends(less, ElementOf(s), bs, bs');
    }
    ManyExtends(read, Joiner(less, s), d.value, [], d.rest, more);
  }

  /** A reader that looks no further than it consumes, used n times, does not either. */
  lemma {:induction false} ManyExtends(read: seq<Byte> -> Result<Value>, join: (seq<Value>, Value) -> seq<Value>,
                                       n: nat, xs: seq<Value>, bytes: seq<Byte>, more: seq<Byte>)
    requires forall bs, bs' | read(bs).Success? :: read(bs + bs') == Success(read(bs).value, read(bs).rest + bs')
    requires ReadMany(read, join, n, xs, bytes).Success?
    ensures var r := ReadMany(read, join, n, xs, bytes);
      ReadMany(read, join, n, xs, bytes + more) == Success(r.value, r.rest + more)
  {
    if n > 0 {
      var r := read(bytes);
      ManyExtends(read, join, n - 1, join(xs, r.value), r.rest, more);
    }
  }

  /** No reader is content with nothing. */
  lemma {:induction false} EmptyIsRejected(less: Order, s: Schema)
    ensures Deser(less, s, []) == Failure
    decreases s
  {
    if s.Pair? {
      EmptyIsRejected(less, s.first);
    }
  }

  /** Cutting a written value short anywhere makes the reader fail. */
  lemma TruncatedIsRejected(less: Order, s: Schema, v: Value, k: nat)
    requires HasType(less, s, v)
    requires Writable(v) && k < |Ser(v)|
    ensures Deser(less, s, Ser(v)[..k]) == Failure
  {
    var cut, more := Ser(v)[..k], Ser(v)[k..];
    assert cut + more == Ser(v) == Ser(v) + [];
    RoundTrip(less, s, v, []);
    assert |more| > 0;
    if Deser(less, s, cut).Success? {
      DeserExtends(less, s, cut, more);
    }
  }

  /** Asked for directly, a vector of chars only misses its size; lost characters come back as zeros. */
  lemma TruncatedCharVector(less: Order, chars: seq<Byte>, k: nat)
    requires |chars| < LIMIT && k < |Ser(StrV(chars))|
    ensures var h := |Encode(|chars|)|;
      DeserRequest(less, CharVector, Ser(StrV(chars))[..k]) ==
      if k < h then Failure
      else Success(StrV(chars[..k - h] + seq(|chars| - (k - h), i => 0)), [])
  {
    var h := |Encode(|chars|)|;
    var cut := Ser(StrV(chars))[..k];
    if k < h {
      assert cut == Encode(|chars|)[..k];
      TruncatedSize(|chars|, k);
    } else {
      var got := chars[..k - h];
      assert cut == Encode(|chars|) + got;
      SizeRoundTrip(|chars|, got);
      assert got[..|got|] == got && got[|got|..] == [];
    }
  }

  /**
   A value cut short is accepted exactly if it is a vector of chars asked for
   directly and nothing but characters is missing.
   */
  lemma TruncatedIff(less: Order, q: Request, v: Value, k: nat)
    requires HasRequestedType(less, q, v) && Writable(v) && k < |Ser(v)|
    ensures DeserRequest(less, q, Ser(v)[..k]).Success? <==> q.CharVector? && |Ser(v)| - k <= |v.chars|
  {
    match q
    case Typed(s) => TruncatedIsRejected(less, s, v, k);
    case CharVector => TruncatedCharVector(less, v.chars, k);
  }

  /** The same bytes, cut by the same amount, inside another type: there the loss is noticed. */
  lemma TruncatedInsideIsRejected(less: Order, chars: seq<Byte>, k: nat)
    requires |chars| < LIMIT && k < |Ser(StrV(chars))|
    ensures Deser(less, Vector(Char), Ser(StrV(chars))[..k]) == Failure
  {
    SameBytesForChars(chars);
    TruncatedIsRejected(less, Vector(Char), ListV(CharItems(chars)), k);
  }

  lemma TruncatedSize(n: nat, k: nat)
    requires n < LIMIT && k < |Encode(n)|
    ensures Decode(SIZE_TYPE, Encode(n)[..k]) == Failure
  {
    var size, more := Encode(n)[..k], Encode(n)[k..];
    assert size + more == Encode(n) + [];
    SizeRoundTrip(n, []);
    assert |more| > 0;
    if Decode(SIZE_TYPE, size).Success? {
      DecodeExtends(SIZE_TYPE, size, more);
    }
  }

  // -------------------------------------------------- numbers to bytes and back

  /** A number written as a float and read back, whatever follows it, is the same number. */
  lemma NumberRoundTrip(less: Order, n: FloatDetails.Number, rest: seq<Byte>)
    requires FloatDetails.Representable(n)
    ensures var written := FloatV(FloatDetails.ConvertFrom(n));
      && Writable(written)
      && var read := Deser(less, Float, Ser(written) + rest);
      && read.Success? && read.rest == rest && read.value.FloatV?
      && FloatDetails.ConvertTo(read.value.d) == FloatDetails.ValueOf(n)
  {
    FloatDetails.ConversionRoundTrip(n);
    RoundTrip(less, Float, FloatV(FloatDetails.ConvertFrom(n)), rest);
  }

  /**
   The same from the number itself, which the library splits into fraction and
   exponent: what comes back is the number exactly if the mantissa has room for
   all its digits.
   */
  lemma RealRoundTripIff(less: Order, x: real, fr: real, exp: int, digits: nat, rest: seq<Byte>)
    requires FloatDetails.IsFrexp(x, fr, exp) && digits <= 63
    requires -32768 <= exp - digits && exp - digits + 64 < FloatDetails.IS_INF
    ensures var written := FloatV(FloatDetails.ConvertFrom(FloatDetails.Split(fr, exp, digits)));
      && Writable(written)
      && var read := Deser(less, Float, Ser(written) + rest);
      && read.Success? && read.rest == rest && read.value.FloatV?
      && (FloatDetails.ConvertTo(read.value.d) == FloatDetails.Number(x) <==> FloatDetails.HasDigits(x, digits))
  {
    FloatDetails.SplitIsRepresentable(x, fr, exp, digits);
    FloatDetails.SplitIsExactIff(x, fr, exp, digits);
    NumberRoundTrip(less, FloatDetails.Split(fr, exp, digits), rest);
  }

  // ------------------------------------------------------- writing and reading

  /** No signed integer in v is the most negative one of its type, which the writer cannot negate. */
  predicate AvoidsMinimum(s: Schema, v: Value)
    decreases v
  {
    match s
    case Int(t) => v.IntV? && t.signed ==> v.i != -(Pow256(t.width) / 2)
    case Float => v.FloatV? ==> v.d.mantissa != -(LIMIT / 2) && v.d.exponent != -0x8000
    case Pair(a, b) => v.PairV? ==> AvoidsMinimum(a, v.fst) && AvoidsMinimum(b, v.snd)
    case Vector(e) => v.ListV? ==> forall i | 0 <= i < |v.items| :: AvoidsMinimum(e, v.items[i])
    case Set(e) => v.ListV? ==> forall i | 0 <= i < |v.items| :: AvoidsMinimum(e, v.items[i])
    case Map(k, e) => v.ListV? ==> forall i | 0 <= i < |v.items| :: AvoidsMinimum(Pair(k, e), v.items[i])
    case _ => true
  }

  method Serialize(ghost less: Order, s: Schema, v: Value, out: OutStream)
    requires HasType(less, s, v) && AvoidsMinimum(s, v)
    modifies out
    ensures Writable(v) && out.data == old(out.data) + Ser(v)
    decreases v, 1
  {
    match s
    case Int(t) => PackInt(t, v.i, out);
    case Char => out.Put([v.b]);
    case Bool =>
      var c: Byte := if v.v then '1' as int else '0' as int;
      out.Put([c]);
    case Float => SerializeFloat(v.d, out);
    case Pair(a, b) => SerializePair(less, a, b, v.fst, v.snd, out);
    case Str => SerializeChars(v.chars, out);
    case _ => SerializeContainer(less, s, v, out);
  }

  method SerializePair(ghost less: Order, a: Schema, b: Schema, x: Value, y: Value, out: OutStream)
    requires HasType(less, a, x) && HasType(less, b, y) && AvoidsMinimum(a, x) && AvoidsMinimum(b, y)
    modifies out
    ensures Writable(x) && Writable(y) && out.data == old(out.data) + (Ser(x) + Ser(y))
    decreases PairV(x, y), 0, 0
  {
    ghost var base := out.data;
    Serialize(less, a, x, out);
    Serialize(less, b, y, out);
    Regroup(base, Ser(x), Ser(y));
  }

  method SerializeFloat(d: FloatDetails.Details, out: OutStream)
    requires InRange(MANTISSA_TYPE, d.mantissa) && InRange(EXPONENT_TYPE, d.exponent)
    requires AvoidsMinimum(Float, FloatV(d))
    modifies out
    ensures Writable(FloatV(d)) && out.data == old(out.data) + Ser(FloatV(d))
  {
    LimitIsPower();
    assert Pow256(2) == 0x1_0000;
    ghost var base := out.data;
    PackInt(MANTISSA_TYPE, d.mantissa, out);
    PackInt(EXPONENT_TYPE, d.exponent, out);
    Regroup(base, Encode(d.mantissa), Encode(d.exponent));
  }

  method SerializeChars(chars: seq<Byte>, out: OutStream)
    requires |chars| < LIMIT
    modifies out
    ensures out.data == old(out.data) + Ser(StrV(chars))
  {
    LimitIsPower();
    PackInt(SIZE_TYPE, |chars|, out);
    out.Put(chars);
  }

  lemma SerAllSnoc(vs: seq<Value>, i: nat)
    requires i < |vs| && forall k | 0 <= k < |vs| :: Writable(vs[k])
    ensures SerAll(vs[..i + 1]) == SerAll(vs[..i]) + Ser(vs[i])
  {
    if i == 0 {
      assert vs[..1][1..] == [];
    } else {
      SerAllSnoc(vs[1..], i - 1);
      assert vs[..i + 1][1..] == vs[1..][..i] && vs[..i][1..] == vs[1..][..i - 1];
    }
  }

  method SerializeContainer(ghost less: Order, s: Schema, v: Value, out: OutStream)
    requires s.Vector? || s.Set? || s.Map?
    requires HasType(less, s, v) && AvoidsMinimum(s, v)
    modifies out
    ensures Writable(v) && out.data == old(out.data) + Ser(v)
    decreases v, 0, 1
  {
    TypedIsWritable(less, s, v);
    LimitIsPower();
    ghost var base := out.data;
    PackInt(SIZE_TYPE, |v.items|, out);
    SerializeItems(less, s, v, out);
    Regroup(base, Encode(|v.items|), SerAll(v.items));
  }

  lemma ItemIsTyped(less: Order, s: Schema, v: Value, i: nat)
    requires (s.Vector? || s.Set? || s.Map?) && HasType(less, s, v) && AvoidsMinimum(s, v) && i < |v.items|
    ensures HasType(less, ElementOf(s), v.items[i]) && AvoidsMinimum(ElementOf(s), v.items[i])
  {
    JoinAppends(less, s, v.items, i);
  }

  method SerializeItems(ghost less: Order, s: Schema, v: Value, out: OutStream)
    requires s.Vector? || s.Set? || s.Map?
    requires HasType(less, s, v) && AvoidsMinimum(s, v) && Writable(v)
    modifies out
    ensures out.data == old(out.data) + SerAll(v.items)
    decreases v, 0, 0
  {
    ghost var base := out.data;
    for i := 0 to |v.items|
      invariant out.data == base + SerAll(v.items[..i])
    {
      SerAllSnoc(v.items, i);
      ItemIsTyped(less, s, v, i);
      Serialize(less, ElementOf(s), v.items[i], out);
      Regroup(base, SerAll(v.items[..i]), Ser(v.items[i]));
    }
    assert v.items[..|v.items|] == v.items;
  }

  /** ok is false where the source throws. */
  method Deserialize(less: Order, s: Schema, inp: InStream) returns (ok: bool, v: Value)
    requires WellFormed(s)
    modifies inp
    ensures ok <==> Deser(less, s, old(inp.rest)).Success?
    ensures ok ==> Deser(less, s, old(inp.rest)) == Success(v, inp.rest)
    decreases Size(s), 1
  {
    v := BoolV(false);
    match s
    case Int(t) =>
      var i;
      ok, i := UnpackInt(t, inp);
      v := IntV(i);
    case Char =>
      var eof, b := inp.Bump();
      ok, v := !eof, CharV(b);
    case Bool =>
      var eof, b := inp.Bump();
      ok, v := !eof && (b == '1' as int || b == '0' as int), BoolV(b == '1' as int);
    case Float =>
      if !BinaryFormat(inp.rest) {
        return false, v;
      }
      var m, e;
      ok, m := UnpackInt(MANTISSA_TYPE, inp);
      if !ok {
        return;
      }
      ok, e := UnpackInt(EXPONENT_TYPE, inp);
      v := FloatV(FloatDetails.Details(m, e));
    case Pair(a, b) =>
      var x, y;
      ok, x := Deserialize(less, a, inp);
      if !ok {
        return;
      }
      ok, y := Deserialize(less, b, inp);
      v := PairV(x, y);
    case Str =>
      var n, chars;
      ok, n := UnpackInt(SIZE_TYPE, inp);
      if !ok {
        return;
      }
      chars := inp.Take(n);
      ok, v := |chars| == n, StrV(chars);
    case _ => ok, v := DeserializeContainer(less, s, inp);
  }

  /** What a caller writes: any type, or a vector of chars in one go. */
  method SerializeRequest(ghost less: Order, q: Request, v: Value, out: OutStream)
    requires HasRequestedType(less, q, v) && (q.Typed? ==> AvoidsMinimum(q.s, v))
    modifies out
    ensures Writable(v) && out.data == old(out.data) + Ser(v)
  {
    match q
    case Typed(s) => Serialize(less, s, v, out);
    case CharVector => SerializeChars(v.chars, out);
  }

  method DeserializeRequest(less: Order, q: Request, inp: InStream) returns (ok: bool, v: Value)
    requires q.Typed? ==> WellFormed(q.s)
    modifies inp
    ensures ok <==> DeserRequest(less, q, old(inp.rest)).Success?
    ensures ok ==> DeserRequest(less, q, old(inp.rest)) == Success(v, inp.rest)
  {
    match q
    case Typed(s) =>
      ok, v := Deserialize(less, s, inp);
    case CharVector =>
      var n, chars;
      v := BoolV(false);
      ok, n := UnpackInt(SIZE_TYPE, inp);
      if !ok {
        return;
      }
      chars := inp.Take(n);
      v := StrV(chars + seq(n - |chars|, i => 0));
  }

  /** The integer types the reader names have one to eight bytes. */
  predicate WellFormed(s: Schema) {
    match s
    case Int(t) => ValidType(t)
    case Pair(a, b) => WellFormed(a) && WellFormed(b)
    case Vector(e) => WellFormed(e)
    case Set(e) => WellFormed(e)
    case Map(k, e) => WellFormed(k) && WellFormed(e)
    case _ => true
  }

  method DeserializeContainer(less: Order, s: Schema, inp: InStream) returns (ok: bool, v: Value)
    requires (s.Vector? || s.Set? || s.Map?) && WellFormed(s)
    modifies inp
    ensures ok <==> Deser(less, s, old(inp.rest)).Success?
    ensures ok ==> Deser(less, s, old(inp.rest)) == Success(v, inp.rest)
    decreases Size(s), 0, 1
  {
    v := BoolV(false);
    var n;
    ok, n := UnpackInt(SIZE_TYPE, inp);
    if !ok {
      return;
    }
    var xs;
    ok, xs := DeserializeItems(less, s, n, inp);
    v := ListV(xs);
  }

  method DeserializeItems(less: Order, s: Schema, n: nat, inp: InStream) returns (ok: bool, xs: seq<Value>)
    requires (s.Vector? || s.Set? || s.Map?) && WellFormed(s)
    modifies inp
    ensures ReadMany(Reader(less, ElementOf(s)), Joiner(less, s), n, [], old(inp.rest)) ==
            if ok then Success(xs, inp.rest) else Failure
    decreases Size(s), 0, 0
  {
    ok, xs := ReadLoop(less, s, n, Reader(less, ElementOf(s)), Joiner(less, s), inp);
  }

  predicate Opened(read: seq<Byte> -> Result<Value>) {
    true
  }

  /**
   read and join are what the elements of s are read and collected with. The
   trigger lets the loop carry this fact along; reading one element opens it.
   */
  ghost predicate Collects(less: Order, s: Schema, read: seq<Byte> -> Result<Value>,
                           join: (seq<Value>, Value) -> seq<Value>)
  {
    && (s.Vector? || s.Set? || s.Map?)
    && forall r {:trigger Opened(r)} :: r == read ==> read == Reader(less, ElementOf(s)) && join == Joiner(less, s)
  }

  method ReadLoop(less: Order, s: Schema, n: nat, ghost read: seq<Byte> -> Result<Value>,
                  ghost join: (seq<Value>, Value) -> seq<Value>, inp: InStream)
    returns (ok: bool, xs: seq<Value>)
    requires Collects(less, s, read, join) && WellFormed(s)
    modifies inp
    ensures ReadMany(read, join, n, [], old(inp.rest)) == if ok then Success(xs, inp.rest) else Failure
    decreases Size(ElementOf(s)), 3
  {
    ghost var all := ReadMany(read, join, n, [], inp.rest);
    xs, ok := [], true;
    for i := 0 to n
      invariant ok && all == ReadMany(read, join, n - i, xs, inp.rest)
    {
      ok, xs := ReadElement(less, s, xs, read, join, inp);
      if !ok {
        return;
      }
    }
  }

  /** The body of the loop: the next element joins the container. */
  method ReadElement(less: Order, s: Schema, before: seq<Value>, ghost read: seq<Byte> -> Result<Value>,
                     ghost join: (seq<Value>, Value) -> seq<Value>, inp: InStream)
    returns (ok: bool, xs: seq<Value>)
    requires Collects(less, s, read, join) && WellFormed(s)
    modifies inp
    ensures var r := read(old(inp.rest));
      (ok <==> r.Success?) && (ok ==> xs == join(before, r.value) && inp.rest == r.rest)
    decreases Size(ElementOf(s)), 2
  {
    assert Opened(read);
    var x;
    ok, x := Deserialize(less, ElementOf(s), inp);
    xs := if ok then Join(less, s, before, x) else before;
  }
}
