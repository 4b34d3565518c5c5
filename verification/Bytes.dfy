/** Byte strings, the optional result used by every reader, and the little-endian
    fixed-width integers and opaque 4-byte floats that the wire carries. */
module Bytes {

  newtype byte = x: int | 0 <= x < 256

  type Bytes = seq<byte>

  /** A float is never computed with here; it is the 4-byte word that memcpy moves. */
  datatype Float = Float(b0: byte, b1: byte, b2: byte, b3: byte)

  type Vec = seq<Float>

  /** One database record: the Data struct with each length implied by its field. */
  datatype Record = Record(id: Bytes, embedding: Vec, document: Bytes, metadata: Bytes)

  /** The value of the default constructor Data(). */
  const EMPTY_RECORD := Record([], [], [], [])

  const TWO31: int := 0x8000_0000
  const TWO32: int := 0x1_0000_0000
  const TWO64: int := 0x1_0000_0000_0000_0000

  /** size_t arithmetic wraps modulo 2^64. */
  function Wrap64(x: int): (r: nat)
    ensures r < TWO64
    ensures 0 <= x < TWO64 ==> r == x
    ensures (r - x) % 0x1_0000_0000_0000_0000 == 0
  {
    if 0 <= x < TWO64 then x else x % 0x1_0000_0000_0000_0000
  }

  lemma Times(a: nat, b: nat, k: nat)
    ensures (a + b) * k == a * k + b * k && a * k >= 0 && b * k >= 0 && 1 * k == k
  {
  }

  function Min(a: nat, b: nat): nat {
    if a < b then a else b
  }

  const CR: byte := 13
  const LF: byte := 10

  datatype Option<+T> = None | Some(value: T) {
    predicate IsFailure() {
      None?
    }

    function PropagateFailure<U>(): Option<U>
      requires None?
    {
      None
    }

    function Extract(): T
      requires Some?
    {
      value
    }
  }

  lemma Assoc<T>(a: seq<T>, b: seq<T>, c: seq<T>)
    ensures (a + b) + c == a + (b + c)
  {
  }

  lemma TakeDrop<T>(s: seq<T>, i: nat)
    requires i <= |s|
    ensures s[..i] + s[i..] == s
  {
  }

  // ---------- fixed-width integers ----------

  function Pow256(w: nat): nat {
    if w == 0 then 1 else 256 * Pow256(w - 1)
  }

  /** The w low-order bytes of n, least significant first. */
  function LittleEndian(n: nat, w: nat): (b: Bytes)
    ensures |b| == w
  {
    if w == 0 then [] else [(n % 256) as byte] + LittleEndian(n / 256, w - 1)
  }

  function FromLittleEndian(b: Bytes): nat {
    if b == [] then 0 else b[0] as nat + 256 * FromLittleEndian(b[1..])
  }

  lemma {:induction false} FromLittleEndianBound(b: Bytes)
    ensures FromLittleEndian(b) < Pow256(|b|)
  {
    if b != [] {
      FromLittleEndianBound(b[1..]);
    }
  }

  lemma {:induction false} LittleEndianRoundTrip(n: nat, w: nat)
    requires n < Pow256(w)
    ensures FromLittleEndian(LittleEndian(n, w)) == n
  {
    if w > 0 {
      LittleEndianRoundTrip(n / 256, w - 1);
      assert LittleEndian(n, w)[1..] == LittleEndian(n / 256, w - 1);
    }
  }

  lemma Widths()
    ensures Pow256(4) == TWO32 && Pow256(8) == TWO64
  {
    assert Pow256(1) == 256;
    assert Pow256(2) == 0x1_0000;
    assert Pow256(3) == 0x100_0000;
    assert Pow256(4) == 0x1_0000_0000;
    assert Pow256(5) == 0x100_0000_0000;
    assert Pow256(6) == 0x1_0000_0000_0000;
    assert Pow256(7) == 0x100_0000_0000_0000;
  }

  /** An unsigned 64-bit integer, as struct.pack writes it and memcpy reads it. */
  function U64(n: nat): (b: Bytes)
    ensures |b| == 8
  {
    LittleEndian(n, 8)
  }

  function TakeU64(bs: Bytes): (r: Option<(nat, Bytes)>)
    ensures r.Some? <==> |bs| >= 8
    ensures r.Some? ==> r.value.1 == bs[8..]
  {
    if |bs| < 8 then None else Some((FromLittleEndian(bs[..8]), bs[8..]))
  }

  lemma TakeU64Back(n: nat, tail: Bytes)
    requires n < TWO64
    ensures TakeU64(U64(n) + tail) == Some((n, tail))
  {
    Widths();
    LittleEndianRoundTrip(n, 8);
    assert (U64(n) + tail)[..8] == U64(n);
    assert (U64(n) + tail)[8..] == tail;
  }

  /** A C int: two's complement in 4 bytes. */
  function I32(h: int): (b: Bytes)
    requires -TWO31 <= h < TWO31
    ensures |b| == 4
  {
    LittleEndian(if h < 0 then h + TWO32 else h, 4)
  }

  function TakeI32(bs: Bytes): (r: Option<(int, Bytes)>)
    ensures r.Some? <==> |bs| >= 4
    ensures r.Some? ==> r.value.1 == bs[4..]
  {
    if |bs| < 4 then None
    else
      var u := FromLittleEndian(bs[..4]);
      Some((if u < TWO31 then u else u - TWO32, bs[4..]))
  }

  lemma TakeI32Back(h: int, tail: Bytes)
    requires -TWO31 <= h < TWO31
    ensures TakeI32(I32(h) + tail) == Some((h, tail))
  {
    Widths();
    LittleEndianRoundTrip(if h < 0 then h + TWO32 else h, 4);
    assert (I32(h) + tail)[..4] == I32(h);
    assert (I32(h) + tail)[4..] == tail;
  }

  // ---------- runs of bytes and floats ----------

  function TakeBytes(bs: Bytes, n: nat): (r: Option<(Bytes, Bytes)>)
    ensures r.Some? <==> |bs| >= n
    ensures r.Some? ==> r.value == (bs[..n], bs[n..])
  {
    if |bs| < n then None else Some((bs[..n], bs[n..]))
  }

  function FloatBytes(v: Vec): (b: Bytes)
    ensures |b| == 4 * |v|
  {
    if v == [] then []
    else [v[0].b0, v[0].b1, v[0].b2, v[0].b3] + FloatBytes(v[1..])
  }

  function TakeFloats(bs: Bytes, n: nat): (r: Option<(Vec, Bytes)>)
    ensures r.Some? <==> |bs| >= 4 * n
    ensures r.Some? ==> |r.value.0| == n && r.value.1 == bs[4 * n..]
  {
    if n == 0 then Some(([], bs))
    else if |bs| < 4 then None
    else
      var (v, rest) :- TakeFloats(bs[4..], n - 1);
      Some(([Float(bs[0], bs[1], bs[2], bs[3])] + v, rest))
  }

  lemma {:induction false} TakeFloatsBack(v: Vec, tail: Bytes)
    ensures TakeFloats(FloatBytes(v) + tail, |v|) == Some((v, tail))
  {
    var bs := FloatBytes(v) + tail;
    if v != [] {
      assert bs[4..] == FloatBytes(v[1..]) + tail;
      TakeFloatsBack(v[1..], tail);
      assert v == [v[0]] + v[1..];
    } else {
      assert bs == tail;
    }
  }

  lemma {:induction false} FloatBytesAppend(a: Vec, b: Vec)
    ensures FloatBytes(a + b) == FloatBytes(a) + FloatBytes(b)
  {
    if a == [] {
      assert a + b == b;
    } else {
      assert (a + b)[1..] == a[1..] + b;
      FloatBytesAppend(a[1..], b);
    }
  }

  // ---------- reading in a loop ----------

  /** What is read so far, and what reading the rest gives, as one result. */
  function After<T>(got: seq<T>, rest: Option<(seq<T>, Bytes)>): Option<(seq<T>, Bytes)> {
    match rest
    case None => None
    case Some(p) => Some((got + p.0, p.1))
  }

  lemma AfterNothing<T>(rest: Option<(seq<T>, Bytes)>)
    ensures After([], rest) == rest
  {
    assert rest.Some? ==> [] + rest.value.0 == rest.value.0;
  }

  /** One thing after another, n of them. */
  function TakeMany<T>(take: Bytes -> Option<(T, Bytes)>, n: nat, bs: Bytes): Option<(seq<T>, Bytes)>
    decreases n
  {
    if n == 0 then Some(([], bs))
    else
      var (x, b1) :- take(bs);
      var (xs, rest) :- TakeMany(take, n - 1, b1);
      Some(([x] + xs, rest))
  }

  lemma TakeManyStep<T>(take: Bytes -> Option<(T, Bytes)>, got: seq<T>, n: nat, bs: Bytes)
    requires n > 0
    ensures After(got, TakeMany(take, n, bs)) ==
            match take(bs)
            case None => None
            case Some(p) => After(got + [p.0], TakeMany(take, n - 1, p.1))
  {
    if take(bs).Some? {
      var (x, b1) := take(bs).value;
      var rest := TakeMany(take, n - 1, b1);
      assert rest.Some? ==> got + ([x] + rest.value.0) == (got + [x]) + rest.value.0;
    }
  }

  // ---------- C strings ----------

  /** What std::string(const char*) keeps of a buffer: everything before the first NUL. */
  function CStr(bs: Bytes): (r: Bytes)
    ensures r <= bs && 0 !in r
    ensures |r| < |bs| ==> bs[|r|] == 0
  {
    if bs == [] || bs[0] == 0 then [] else [bs[0]] + CStr(bs[1..])
  }
}
