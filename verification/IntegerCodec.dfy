/**
 The variable-length integer format of ext/dlib/serialize.h: a control byte
 with the sign and the number of payload bytes, then the absolute value in
 little-endian order. `Encode` and `Decode` are the format; `PackInt` and
 `UnpackInt` are the loops that write and read it.
 */
module IntegerCodec {

  type Byte = b: int | 0 <= b < 256

  /** An integer type of the writer or the reader: signedness and size in bytes. */
  datatype IntType = IntType(signed: bool, width: nat)

  predicate ValidType(t: IntType) {
    1 <= t.width <= 8
  }

  /** 256 to the power n. */
  function Pow256(n: nat): (p: nat)
    ensures p >= 1 && (n > 0 ==> p % 256 == 0 && p >= 256)
  {
    if n == 0 then 1 else 256 * Pow256(n - 1)
  }

  /** The values of a type: two's complement when signed. */
  predicate InRange(t: IntType, i: int) {
    if t.signed then -(Pow256(t.width) / 2) <= i < Pow256(t.width) / 2 else 0 <= i < Pow256(t.width)
  }

  /** What storing i in the type keeps. */
  function Wrap(t: IntType, i: int): int {
    var m := i % Pow256(t.width);
    if t.signed && m >= Pow256(t.width) / 2 then m - Pow256(t.width) else m
  }

  function Abs(i: int): nat {
    if i < 0 then -i else i
  }

  /** The little-endian bytes of n; zero still takes one byte. */
  function ToBytes(n: nat): (r: seq<Byte>)
    ensures |r| >= 1
  {
    if n < 256 then [n] else [n % 256] + ToBytes(n / 256)
  }

  function FromBytes(s: seq<Byte>): nat {
    if s == [] then 0 else s[0] + 256 * FromBytes(s[1..])
  }

  /** Eight bytes hold the numbers below this. */
  const LIMIT := 0x1_0000_0000_0000_0000

  lemma LimitIsPower()
    ensures Pow256(8) == LIMIT
  {
    assert Pow256(4) == 0x1_0000_0000;
  }

  /** The integers some type of at most eight bytes holds. */
  predicate Encodable(i: int) {
    Abs(i) < LIMIT
  }

  /** Control byte, then payload. */
  function Encode(i: int): (r: seq<Byte>)
    requires Encodable(i)
    ensures |r| >= 2
  {
    LimitIsPower();
    BytesNeeded(Abs(i), 8);
    var payload := ToBytes(Abs(i));
    [|payload| + (if i < 0 then 0x80 else 0)] + payload
  }

  datatype Result<+T> = Success(value: T, rest: seq<Byte>) | Failure {
    predicate IsFailure() {
      Failure?
    }

    function PropagateFailure<U>(): Result<U>
      requires Failure?
    {
      Failure
    }

    function Extract(): (T, seq<Byte>)
      requires Success?
    {
      (value, rest)
    }
  }

  /** The number of payload bytes as the reader understands the control byte; unsigned readers keep the sign bit. */
  function PayloadSize(t: IntType, control: Byte): nat {
    if t.signed then control % 16 else control % 16 + (if control >= 0x80 then 0x80 else 0)
  }

  function Decode(t: IntType, s: seq<Byte>): (r: Result<int>)
    ensures r.Success? && !t.signed ==> r.value >= 0
    ensures r.Success? ==> |r.rest| < |s|
  {
    if s == [] then Failure
    else
      var size := PayloadSize(t, s[0]);
      if size == 0 || size > t.width || |s| - 1 < size then Failure
      else
        var item := Wrap(t, FromBytes(s[1..1 + size]));
        Success(if t.signed && s[0] >= 0x80 then Wrap(t, -item) else item, s[1 + size..])
  }

  // -------------------------------------------------------------- arithmetic

  lemma {:induction false} BytesRoundTrip(n: nat)
    ensures FromBytes(ToBytes(n)) == n
  {
    if n >= 256 {
      BytesRoundTrip(n / 256);
    } else {
      assert FromBytes([n]) == n + 256 * FromBytes([]);
    }
  }

  /** A number needs at most w bytes exactly when it is below 256^w. */
  lemma {:induction false} BytesNeeded(n: nat, w: nat)
    requires w >= 1
    ensures |ToBytes(n)| <= w <==> n < Pow256(w)
  {
    if w == 1 {
      assert Pow256(1) == 256 * Pow256(0) == 256;
    } else if n >= 256 {
      BytesNeeded(n / 256, w - 1);
      DividedBelow(n, Pow256(w - 1));
    } else {
      assert Pow256(w) == 256 * Pow256(w - 1);
    }
  }

  lemma DividedBelow(n: nat, p: nat)
    ensures n / 256 < p <==> n < 256 * p
  {
  }

  lemma {:induction false} FromBytesBound(s: seq<Byte>)
    ensures FromBytes(s) < Pow256(|s|)
  {
    if s != [] {
      FromBytesBound(s[1..]);
    }
  }

  lemma {:induction false} Pow256Monotone(m: nat, n: nat)
    requires m <= n
    ensures Pow256(m) <= Pow256(n)
    decreases n
  {
    if m < n {
      Pow256Monotone(m, n - 1);
    }
  }

  lemma ModSmall(i: int, p: int)
    requires p > 0 && -p <= i < p
    ensures i % p == if i >= 0 then i else i + p
  {
    var q, r := i / p, i % p;
    assert i == p * q + r;
    assert q >= 1 ==> p * q >= p;
    assert q <= -2 ==> p * q + 2 * p <= 0;
  }

  lemma HalfPower(n: nat)
    requires n >= 1
    ensures Pow256(n) == 2 * (Pow256(n) / 2) && Pow256(n) / 2 >= 128
  {
    var q := Pow256(n - 1);
    assert Pow256(n) == 2 * (128 * q) && 128 * q >= 128;
  }

  /** Storing a number of at most w bytes keeps it exactly when it is in range. */
  lemma WrapKeepsIffInRange(t: IntType, m: nat)
    requires ValidType(t) && m < Pow256(t.width)
    ensures Wrap(t, m) == m <==> InRange(t, m)
    ensures InRange(t, Wrap(t, m))
  {
    HalfPower(t.width);
    ModSmall(m, Pow256(t.width));
  }

  // ------------------------------------------------------------------ layout

  lemma DivideTwice(n: nat, p: nat)
    requires p > 0
    ensures n / 256 / p == n / (256 * p)
  {
    var a, q := n / 256, n / 256 / p;
    var r := (n % 256) + 256 * (a % p);
    assert a == p * q + a % p;
    assert n == (256 * p) * q + r;
    assert 0 <= r < 256 * p;
    QuotientIsUnique(256 * p, q, r);
  }

  lemma QuotientIsUnique(d: nat, q: nat, r: nat)
    requires r < d
    ensures (d * q + r) / d == q
  {
    var x := d * q + r;
    var k := x / d - q;
    assert d * (x / d) == d * q + d * k;
    assert d * k == r - x % d;
    assert k >= 1 ==> d * k >= d;
    assert k <= -1 ==> d * k + d <= 0;
  }

  /** The bytes of a number are its digits to the base 256, the lowest first, without leading zeros. */
  lemma {:induction false} BytesAreDigits(n: nat, k: nat)
    requires k < |ToBytes(n)|
    ensures ToBytes(n)[k] == (n / Pow256(k)) % 256
    ensures |ToBytes(n)| > 1 ==> ToBytes(n)[|ToBytes(n)| - 1] != 0
  {
    if n >= 256 {
      BytesAreDigits(n / 256, if k > 0 then k - 1 else 0);
      if k > 0 {
        DivideTwice(n, Pow256(k - 1));
      }
    }
  }

  /** A further byte is the next higher digit. */
  lemma {:induction false} HighestByte(s: seq<Byte>, b: Byte)
    ensures FromBytes(s + [b]) == FromBytes(s) + b * Pow256(|s|)
  {
    if s == [] {
      assert [b][1..] == [];
    } else {
      assert (s + [b])[1..] == s[1..] + [b];
      HighestByte(s[1..], b);
    }
  }

  /** The control byte holds the sign and the number of digits, and these follow. */
  lemma EncodingLayout(i: int, k: nat)
    requires Encodable(i) && k < |Encode(i)| - 1
    ensures var s := Encode(i);
      && |s| <= 9 && s[0] % 128 == |s| - 1 && (s[0] >= 128 <==> i < 0)
      && s[1 + k] == ((if i < 0 then -i else i) / Pow256(k)) % 256
      && (|s| > 2 ==> s[|s| - 1] != 0)
  {
    LimitIsPower();
    BytesNeeded(Abs(i), 8);
    BytesAreDigits(Abs(i), k);
  }

  /** Two numbers that a word of the type cannot tell apart. */
  ghost predicate Congruent(t: IntType, i: int, j: int) {
    exists q: int :: i == j + q * Pow256(t.width)
  }

  /** Storing keeps the number up to multiples of the word's size. */
  lemma WrapIsCongruent(t: IntType, i: int)
    requires ValidType(t)
    ensures InRange(t, Wrap(t, i)) && Congruent(t, i, Wrap(t, i))
  {
    var p: int := Pow256(t.width);
    HalfPower(t.width);
    var m := i % p;
    assert i == m + (i / p) * p;
    assert i == (m - p) + (i / p + 1) * p;
  }

  lemma CongruentNegation(t: IntType, i: int, j: int, k: int)
    requires Congruent(t, i, j) && Congruent(t, -j, k)
    ensures Congruent(t, -i, k)
  {
    var q: int :| i == j + q * Pow256(t.width);
    var r: int :| -j == k + r * Pow256(t.width);
    var p: int := Pow256(t.width);
    assert -i == k + (r - q) * p;
  }

  /**
   What a reader makes of any bytes: it looks at the sign and at the low half of
   the control byte only, needs as many payload bytes as that says, one at
   least and no more than its type has, and stores their value in its type. An
   unsigned reader accepts no sign.
   */
  lemma DecodeLaw(t: IntType, s: seq<Byte>)
    requires ValidType(t)
    ensures var r := Decode(t, s);
      && (r.Success? <==> s != [] && 1 <= s[0] % 16 <= t.width && s[0] % 16 < |s| && (s[0] >= 128 ==> t.signed))
      && (r.Success? ==>
            var n := s[0] % 16;
            && r.rest == s[1 + n..] && InRange(t, r.value)
            && var v: int := FromBytes(s[1..1 + n]); Congruent(t, if s[0] >= 128 then -v else v, r.value))
  {
    if Decode(t, s).Success? {
      var v := FromBytes(s[1..1 + s[0] % 16]);
      WrapIsCongruent(t, v);
      if s[0] >= 128 {
        WrapIsCongruent(t, -Wrap(t, v));
        CongruentNegation(t, v, Wrap(t, v), Wrap(t, -Wrap(t, v)));
      }
    }
  }

  // ------------------------------------------------------------- round trip

  lemma EncodedLayout(i: int, rest: seq<Byte>)
    requires Encodable(i)
    ensures var s, n := Encode(i) + rest, |ToBytes(Abs(i))|;
      && n <= 8 && s[0] == n + (if i < 0 then 0x80 else 0)
      && s[1..1 + n] == ToBytes(Abs(i)) && s[1 + n..] == rest
  {
    LimitIsPower();
    BytesNeeded(Abs(i), 8);
  }

  /** A reader of type t has no room for the payload, or no use for the sign. */
  predicate TooBig(t: IntType, i: int) {
    (i < 0 && !t.signed) || Abs(i) >= Pow256(t.width)
  }

  /** The absolute value is stored first and negated afterwards. */
  function Stored(t: IntType, i: int): int {
    if i < 0 then Wrap(t, -Wrap(t, -i)) else Wrap(t, i)
  }

  /** What a reader of type t makes of the encoding of any i of at most eight bytes. */
  lemma DecodeEncoded(t: IntType, i: int, rest: seq<Byte>)
    requires ValidType(t) && Encodable(i)
    ensures Decode(t, Encode(i) + rest) ==
      if TooBig(t, i) then Failure else Success(Stored(t, i), rest)
  {
    EncodedLayout(i, rest);
    BytesNeeded(Abs(i), t.width);
    BytesRoundTrip(Abs(i));
    assert PayloadSize(t, (Encode(i) + rest)[0]) ==
           |ToBytes(Abs(i))| + (if i < 0 && !t.signed then 0x80 else 0);
  }

  /**
   Reading back what was written gives the integer and exactly the bytes after
   it if and only if the integer is a value of the reader's type.
   */
  lemma RoundTripIffInRange(t: IntType, i: int, rest: seq<Byte>)
    requires ValidType(t) && Encodable(i)
    ensures Decode(t, Encode(i) + rest) == Success(i, rest) <==> InRange(t, i)
    ensures i < 0 && !t.signed ==> Decode(t, Encode(i) + rest) == Failure
  {
    DecodeEncoded(t, i, rest);
    StoredIffInRange(t, i);
  }

  lemma StoredIffInRange(t: IntType, i: int)
    requires ValidType(t)
    ensures InRange(t, i) <==> !TooBig(t, i) && Stored(t, i) == i
  {
    if TooBig(t, i) {
      TooBigIsOutOfRange(t, i);
    } else if i < 0 {
      NegatedWrap(t, -i);
    } else {
      WrapKeepsIffInRange(t, i);
    }
  }

  lemma TooBigIsOutOfRange(t: IntType, i: int)
    requires ValidType(t) && TooBig(t, i)
    ensures !InRange(t, i)
  {
    HalfPower(t.width);
  }

  /** The writer negated m - its absolute value -, the reader negates what storing m kept. */
  lemma NegatedWrap(t: IntType, m: int)
    requires ValidType(t) && t.signed && 0 < m < Pow256(t.width)
    ensures Wrap(t, -Wrap(t, m)) == -m <==> InRange(t, -m)
  {
    var p: int := Pow256(t.width);
    HalfPower(t.width);
    ModSmall(m, p);
    ModSmall(-m, p);
    ModSmall(p - m, p);
  }

  /** The reader looks at no byte beyond those it consumes. */
  lemma DecodeExtends(t: IntType, s: seq<Byte>, more: seq<Byte>)
    requires Decode(t, s).Success?
    ensures Decode(t, s + more) == Success(Decode(t, s).value, Decode(t, s).rest + more)
  {
    var size := PayloadSize(t, s[0]);
    assert (s + more)[1..1 + size] == s[1..1 + size];
    assert (s + more)[1 + size..] == s[1 + size..] + more;
  }

  // ------------------------------------------------------- writing and reading

  class OutStream {
    var data: seq<Byte>

    constructor ()
      ensures data == []
    {
      data := [];
    }

    method Put(s: seq<Byte>)
      modifies this
      ensures data == old(data) + s
    {
      data := data + s;
    }
  }

  /** What is left to read. */
  class InStream {
    var rest: seq<Byte>

    constructor (s: seq<Byte>)
      ensures rest == s
    {
      rest := s;
    }

    /** The next byte, unless the stream is at its end. */
    method Bump() returns (eof: bool, b: Byte)
      modifies this
      ensures eof == (old(rest) == [])
      ensures if eof then rest == old(rest) else b == old(rest)[0] && rest == old(rest)[1..]
    {
      b := 0;
      eof := rest == [];
      if !eof {
        b := rest[0];
        rest := rest[1..];
      }
    }

    /** As many of the next n bytes as there are. */
    method Take(n: nat) returns (s: seq<Byte>)
      modifies this
      ensures s == old(rest)[..if n <= |old(rest)| then n else |old(rest)|]
      ensures rest == old(rest)[|s|..]
    {
      var k := if n <= |rest| then n else |rest|;
      s := rest[..k];
      rest := rest[k..];
    }
  }

  lemma RangeIsEncodable(t: IntType, i: int)
    requires ValidType(t) && InRange(t, i)
    ensures Encodable(i) && Abs(i) < Pow256(t.width)
  {
    HalfPower(t.width);
    LimitIsPower();
    Pow256Monotone(t.width, 8);
  }

  method PackInt(t: IntType, item: int, out: OutStream)
    requires ValidType(t) && InRange(t, item)
    requires !t.signed || item != -(Pow256(t.width) / 2)
    modifies out
    ensures Encodable(item) && out.data == old(out.data) + Encode(item)
  {
    RangeIsEncodable(t, item);
    var neg := 0;
    var x := item;
    if t.signed && x < 0 {
      neg := 0x80;
      x := -x;
    }
    var buf := new Byte[9](_ => 0);
    var size := FillPayload(t, x, buf);
    buf[0] := size + neg;
    var bytes := buf[0..size + 1];
    assert bytes == [size + neg] + buf[1..size + 1];
    out.Put(bytes);
  }

  lemma PeelByte(n: nat, done: seq<Byte>, x: nat)
    requires ToBytes(n) == done + ToBytes(x)
    ensures ToBytes(n) == done + [x % 256] + (if x / 256 == 0 then [] else ToBytes(x / 256))
  {
  }

  /** The loop that peels off the low byte until nothing is left. */
  method FillPayload(t: IntType, item: nat, buf: array<Byte>) returns (size: nat)
    requires ValidType(t) && item < Pow256(t.width) && buf.Length == 9
    modifies buf
    ensures 1 <= size <= t.width && buf[1..size + 1] == ToBytes(item)
  {
    BytesNeeded(item, t.width);
    size := t.width;
    var x := item;
    var i := 1;
    var going := true;
    while going && i <= t.width
      invariant 1 <= i <= t.width + 1
      invariant going ==> size == t.width && ToBytes(item) == buf[1..i] + ToBytes(x)
      invariant !going ==> 1 <= size <= t.width && ToBytes(item) == buf[1..size + 1]
      decreases going, t.width - i
    {
      ghost var before := buf[1..i];
      PeelByte(item, before, x);
      buf[i] := x % 256;
      assert buf[1..i + 1] == before + [x % 256];
      x := x / 256;
      if x == 0 {
        size := i;
        going := false;
      } else {
        i := i + 1;
      }
    }
  }

  method UnpackInt(t: IntType, inp: InStream) returns (ok: bool, item: int)
    requires ValidType(t)
    modifies inp
    ensures ok <==> Decode(t, old(inp.rest)).Success?
    ensures ok ==> Decode(t, old(inp.rest)) == Success(item, inp.rest)
  {
    ghost var s := inp.rest;
    item := 0;
    var eof, control := inp.Bump();
    if eof {
      return false, item;
    }
    var isNegative := t.signed && control >= 0x80;
    var size := PayloadSize(t, control);
    if size > t.width {
      return false, item;
    }
    var buf := inp.Take(size);
    if |buf| != size || size == 0 {
      return false, item;
    }
    assert buf == s[1..1 + size];
    var i := size;
    while i > 0
      invariant 0 <= i <= size && item == FromBytes(buf[i..])
    {
      i := i - 1;
      assert buf[i..][1..] == buf[i + 1..];
      item := item * 256 + buf[i];
    }
    assert buf[0..] == buf;
    item := Wrap(t, item);
    if isNegative {
      item := Wrap(t, -item);
    }
    ok := true;
  }
}
