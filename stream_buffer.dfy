/** A growable byte vector with a read cursor (gpos) and a write counter (ppos).
    Integers are written most significant byte first; strings and vectors carry a
    32-bit length prefix. Short reads yield a default value instead of failing. */
module StreamBuffer {

  import opened IntTypes

  type Bytes = seq<uint8>

  /** Capacity reserved by a stream allocated without an explicit size. */
  const DefaultCapacity: nat := 1024

  /** An RGBA colour, one byte per channel. */
  datatype Color = Color(r: uint8, g: uint8, b: uint8, a: uint8)

  /** The overloads of read: what the next bytes are read as. */
  datatype Kind = KBool | KU8 | KI8 | KU16 | KI16 | KU32 | KI32 | KU64 | KI64 | KStr | KColor

  /** A value of one of the read/write overloads. I64 is also std::time_t, a signed 64-bit integer. */
  datatype Value =
    | Bool(b: bool)
    | U8(u8: uint8)
    | I8(i8: int8)
    | U16(u16: uint16)
    | I16(i16: int16)
    | U32(u32: uint32)
    | I32(i32: int32)
    | U64(u64: uint64)
    | I64(i64: int64)
    | Str(s: Bytes)
    | Col(c: Color)

  function KindOf(v: Value): Kind
  {
    match v
    case Bool(_) => KBool
    case U8(_) => KU8
    case I8(_) => KI8
    case U16(_) => KU16
    case I16(_) => KI16
    case U32(_) => KU32
    case I32(_) => KI32
    case U64(_) => KU64
    case I64(_) => KI64
    case Str(_) => KStr
    case Col(_) => KColor
  }

  /** The values some write overload accepts: there is no write for int8, int16 or int32,
      int64 is written as std::time_t, and a string longer than 2^32 - 1 bytes never
      finishes writing (its uint32 loop index wraps before reaching the length). */
  predicate Writable(v: Value)
  {
    match v
    case I8(_) => false
    case I16(_) => false
    case I32(_) => false
    case Str(s) => |s| < 0x1_0000_0000
    case _ => true
  }

  /** What a read yields when the bytes it needs are not there. */
  function Default(k: Kind): (v: Value)
    ensures KindOf(v) == k
  {
    match k
    case KBool => Bool(false)
    case KU8 => U8(0)
    case KI8 => I8(0)
    case KU16 => U16(0)
    case KI16 => I16(0)
    case KU32 => U32(0)
    case KI32 => I32(0)
    case KU64 => U64(0)
    case KI64 => I64(0)
    case KStr => Str([])
    case KColor => Col(Color(0, 0, 0, 0))
  }

  // ---------------------------------------------------------------------------
  // Big-endian integers

  function Pow256(k: nat): (p: nat)
    ensures p > 0
  {
    if k == 0 then 1 else 256 * Pow256(k - 1)
  }

  /** (uint8_t)(x >> 8*i): the i-th byte of x counting from the least significant. */
  function ByteOf(x: nat, i: nat): uint8
  {
    (x / Pow256(i)) % 256
  }

  /** The k low bytes of x, most significant first. */
  function ToBytes(x: nat, k: nat): (r: Bytes)
    ensures |r| == k
  {
    if k == 0 then [] else ToBytes(x / 256, k - 1) + [x % 256]
  }

  /** Byte j of ToBytes(x, k) is the shifted byte the writes compute. */
  lemma {:induction false} ToBytesByte(x: nat, k: nat, j: nat)
    requires j < k
    ensures ToBytes(x, k)[j] == ByteOf(x, k - 1 - j)
  {
    if j < k - 1 {
      ToBytesByte(x / 256, k - 1, j);
      DivDiv(x, 256, Pow256(k - 2 - j));
      assert Pow256(k - 1 - j) == 256 * Pow256(k - 2 - j);
    }
  }

  /** The number whose big-endian bytes are s. */
  function BigEndian(s: Bytes): nat
  {
    if s == [] then 0 else BigEndian(s[..|s| - 1]) * 256 + s[|s| - 1]
  }

  lemma DivUnique(x: int, d: int, q: int, r: int)
    requires d > 0 && 0 <= r < d && x == d * q + r
    ensures x / d == q && x % d == r
  {
    var q', r' := x / d, x % d;
    assert d * (q - q') == r' - r;
    if q' < q {
      MulAtLeast(d, q - q');
      assert false;
    } else if q' > q {
      MulAtLeast(d, q' - q);
      assert false;
    }
  }

  lemma MulAtLeast(d: int, m: int)
    requires d > 0 && m >= 1
    ensures d * m >= d
  {
  }

  lemma MulFacts(a: int, b: int, q2: int, r2: int)
    requires a > 0 && 0 <= r2 < b
    ensures a * (b * q2 + r2) == (a * b) * q2 + a * r2
    ensures 0 <= a * r2 <= a * b - a
  {
    Distrib(a, b * q2, r2);
    Assoc(a, b, q2);
    MulMono(a, r2, b - 1);
    Distrib(a, b - 1, 1);
  }

  lemma Distrib(a: int, x: int, y: int)
    ensures a * (x + y) == a * x + a * y
  {
  }

  lemma Assoc(a: int, b: int, c: int)
    ensures a * (b * c) == (a * b) * c
  {
  }

  /** Shifting right by a then by b is shifting right by a * b. */
  lemma DivDiv(x: nat, a: nat, b: nat)
    requires a > 0 && b > 0
    ensures x / (a * b) == (x / a) / b
  {
    var q, r := x / a, x % a;
    var q2, r2 := q / b, q % b;
    MulFacts(a, b, q2, r2);
    DivUnique(x, a * b, q2, a * r2 + r);
  }

  lemma {:induction false} BigEndianBound(s: Bytes)
    ensures BigEndian(s) < Pow256(|s|)
  {
    if s != [] {
      var init := s[..|s| - 1];
      BigEndianBound(init);
      assert BigEndian(init) + 1 <= Pow256(|init|);
      assert (BigEndian(init) + 1) * 256 <= Pow256(|init|) * 256;
    }
  }

  /** Decoding the k big-endian bytes of x gives back x. */
  lemma {:induction false} BigEndianToBytes(x: nat, k: nat)
    requires x < Pow256(k)
    ensures BigEndian(ToBytes(x, k)) == x
  {
    if k > 0 {
      var q, r := x / 256, x % 256;
      var s, t := ToBytes(x, k), ToBytes(q, k - 1);
      assert s == t + [r as uint8];
      assert s[..k - 1] == t && s[k - 1] as int == r;
      DivBelow(x, 256, Pow256(k - 1));
      BigEndianToBytes(q, k - 1);
      assert BigEndian(s) == q * 256 + r;
    }
  }

  /** The bytes data >> 8(k-1), ..., data >> 8, data that a write pushes are ToBytes(data, k). */
  lemma WrittenBytes(x: nat, k: nat, buff: Bytes)
    requires |buff| == k && forall j :: 0 <= j < k ==> buff[j] == ByteOf(x, k - 1 - j)
    ensures buff == ToBytes(x, k)
  {
    forall j | 0 <= j < k ensures buff[j] == ToBytes(x, k)[j] {
      ToBytesByte(x, k, j);
    }
  }

  lemma DivBelow(x: nat, d: nat, n: nat)
    requires d > 0 && x < d * n
    ensures x / d < n
  {
    var q := x / d;
    if q >= n {
      MulMono(d, n, q);
      assert false;
    }
  }

  lemma MulMono(d: nat, a: nat, b: nat)
    requires a <= b
    ensures d * a <= d * b
  {
  }

  /** 2^(8k - 1): the first unsigned k-byte value that reads as negative. */
  function Half(k: nat): (h: nat)
    requires k > 0
    ensures 2 * h == Pow256(k)
  {
    128 * Pow256(k - 1)
  }

  /** Two's-complement reading of a k-byte unsigned value u: u itself up to 2^(8k-1) - 1,
      otherwise u - 2^(8k). */
  function Signed(u: nat, k: nat): (r: int)
    requires 0 < k && u < Pow256(k)
    ensures -(Half(k) as int) <= r < Half(k)
  {
    if u < Half(k) then u else u - Pow256(k)
  }

  lemma PowValues()
    ensures Pow256(1) == 0x100 && Pow256(2) == 0x1_0000 && Pow256(4) == 0x1_0000_0000
    ensures Pow256(8) == 0x1_0000_0000_0000_0000
    ensures Half(1) == 0x80 && Half(2) == 0x8000 && Half(4) == 0x8000_0000 && Half(8) == 0x8000_0000_0000_0000
  {
    assert Pow256(2) == 256 * Pow256(1);
    assert Pow256(3) == 256 * Pow256(2);
    assert Pow256(4) == 256 * Pow256(3);
    assert Pow256(5) == 256 * Pow256(4);
    assert Pow256(6) == 256 * Pow256(5);
    assert Pow256(7) == 256 * Pow256(6);
    assert Pow256(8) == 256 * Pow256(7);
  }

  /** The uint64_t cast of a signed 64-bit value is undone by the signed read. */
  lemma SignedOfWrapped(x: int64)
    ensures Signed(x % Pow256(8), 8) == x
  {
    PowValues();
  }

  // ---------------------------------------------------------------------------
  // Encoding and decoding

  /** The bytes that the write overload for v appends. */
  function Encoding(v: Value): (e: Bytes)
    requires Writable(v)
  {
    match v
    case Bool(b) => [if b then 1 else 0]
    case U8(x) => [x]
    case U16(x) => ToBytes(x, 2)
    case U32(x) => ToBytes(x, 4)
    case U64(x) => ToBytes(x, 8)
    case I64(x) => ToBytes(x % 0x1_0000_0000_0000_0000, 8)
    case Str(s) => ToBytes(|s|, 4) + s
    case Col(c) => [c.r, c.g, c.b, c.a]
  }

  /** An unsigned k-byte read at pos: the big-endian value of the next k bytes and the
      advanced cursor, or 0 and the unchanged cursor when fewer than k bytes remain. */
  function ReadUnsigned(buf: Bytes, pos: nat, k: nat): (r: (nat, nat))
    ensures r.0 < Pow256(k)
  {
    if pos + k > |buf| then (0, pos)
    else
      BigEndianBound(buf[pos..pos + k]);
      (BigEndian(buf[pos..pos + k]), pos + k)
  }

  /** read(uint8_t&): the next byte, or 0 without moving at the end of the buffer. */
  function ReadByte(buf: Bytes, pos: nat): (r: (uint8, nat))
  {
    if pos >= |buf| then (0, pos) else (buf[pos], pos + 1)
  }

  /** The read overload for kind k applied at cursor pos: the value read and the new cursor. */
  function Decode(k: Kind, buf: Bytes, pos: nat): (r: (Value, nat))
    ensures KindOf(r.0) == k
  {
    PowValues();
    match k
    case KBool => if pos >= |buf| then (Bool(false), pos) else (Bool(buf[pos] != 0), pos + 1)
    case KU8 => var (x, p) := ReadByte(buf, pos); (U8(x), p)
    case KI8 => if pos >= |buf| then (I8(0), pos) else (I8(Signed(buf[pos], 1)), pos + 1)
    case KU16 => var (u, p) := ReadUnsigned(buf, pos, 2); (U16(u), p)
    case KI16 => var (u, p) := ReadUnsigned(buf, pos, 2); (I16(Signed(u, 2)), p)
    case KU32 => var (u, p) := ReadUnsigned(buf, pos, 4); (U32(u), p)
    case KI32 => var (u, p) := ReadUnsigned(buf, pos, 4); (I32(Signed(u, 4)), p)
    case KU64 => var (u, p) := ReadUnsigned(buf, pos, 8); (U64(u), p)
    case KI64 => var (u, p) := ReadUnsigned(buf, pos, 8); (I64(Signed(u, 8)), p)
    case KStr =>
      var (len, p) := ReadUnsigned(buf, pos, 4);
      if len > 0 && p + len <= |buf| then (Str(buf[p..p + len]), p + len) else (Str([]), p)
    case KColor =>
      var (r, p1) := ReadByte(buf, pos);
      var (g, p2) := ReadByte(buf, p1);
      var (b, p3) := ReadByte(buf, p2);
      var (a, p4) := ReadByte(buf, p3);
      (Col(Color(r, g, b, a)), p4)
  }

  /** Reading k bytes where the big-endian bytes of x were written gives back x. */
  lemma ReadUnsignedToBytes(x: nat, k: nat, prefix: Bytes, suffix: Bytes)
    requires x < Pow256(k)
    ensures ReadUnsigned(prefix + ToBytes(x, k) + suffix, |prefix|, k) == (x, |prefix| + k)
  {
    var buf := prefix + ToBytes(x, k) + suffix;
    assert buf[|prefix|..|prefix| + k] == ToBytes(x, k);
    BigEndianToBytes(x, k);
  }

  /** Single-value round trip: the read overload of v's kind, at the position where v was
      written, yields v and moves past exactly the bytes written. */
  lemma DecodeEncoding(v: Value, prefix: Bytes, suffix: Bytes)
    requires Writable(v)
    ensures Decode(KindOf(v), prefix + Encoding(v) + suffix, |prefix|) == (v, |prefix| + |Encoding(v)|)
  {
    match v
    case Bool(_) => DecodeEncodingBytes(v, prefix, suffix);
    case U8(_) => DecodeEncodingBytes(v, prefix, suffix);
    case Col(_) => DecodeEncodingBytes(v, prefix, suffix);
    case U16(_) => DecodeEncodingInt(v, prefix, suffix);
    case U32(_) => DecodeEncodingInt(v, prefix, suffix);
    case U64(_) => DecodeEncodingInt(v, prefix, suffix);
    case I64(_) => DecodeEncodingInt(v, prefix, suffix);
    case Str(s) => DecodeEncodingStr(s, prefix, suffix);
  }

  lemma DecodeEncodingBytes(v: Value, prefix: Bytes, suffix: Bytes)
    requires v.Bool? || v.U8? || v.Col?
    ensures Decode(KindOf(v), prefix + Encoding(v) + suffix, |prefix|) == (v, |prefix| + |Encoding(v)|)
  {
    var buf := prefix + Encoding(v) + suffix;
    var n := |prefix|;
    match v
    case Bool(b) =>
      assert buf[n] == Encoding(v)[0];
    case U8(x) =>
      assert buf[n] == x;
    case Col(c) =>
      assert buf[n] == c.r && buf[n + 1] == c.g && buf[n + 2] == c.b && buf[n + 3] == c.a;
  }

  lemma DecodeEncodingInt(v: Value, prefix: Bytes, suffix: Bytes)
    requires v.U16? || v.U32? || v.U64? || v.I64?
    ensures Decode(KindOf(v), prefix + Encoding(v) + suffix, |prefix|) == (v, |prefix| + |Encoding(v)|)
  {
    PowValues();
    match v
    case U16(x) => ReadUnsignedToBytes(x, 2, prefix, suffix);
    case U32(x) => ReadUnsignedToBytes(x, 4, prefix, suffix);
    case U64(x) => ReadUnsignedToBytes(x, 8, prefix, suffix);
    case I64(x) =>
      ReadUnsignedToBytes(x % 0x1_0000_0000_0000_0000, 8, prefix, suffix);
      SignedOfWrapped(x);
  }

  lemma DecodeEncodingStr(s: Bytes, prefix: Bytes, suffix: Bytes)
    requires |s| < 0x1_0000_0000
    ensures Decode(KStr, prefix + Encoding(Str(s)) + suffix, |prefix|) == (Str(s), |prefix| + 4 + |s|)
  {
    PowValues();
    var buf := prefix + Encoding(Str(s)) + suffix;
    var n := |prefix|;
    assert buf == prefix + ToBytes(|s|, 4) + (s + suffix);
    ReadUnsignedToBytes(|s|, 4, prefix, s + suffix);
    assert buf[n + 4..n + 4 + |s|] == s;
  }

  /** At or past the end of the buffer every read yields its default and does not move. */
  lemma DecodeAtEnd(k: Kind, buf: Bytes, pos: nat)
    requires pos >= |buf|
    ensures Decode(k, buf, pos) == (Default(k), pos)
  {
  }

  // ---------------------------------------------------------------------------
  // Sequences of values, and the length-prefixed vector format

  predicate AllWritable(vs: seq<Value>)
  {
    forall i :: 0 <= i < |vs| ==> Writable(vs[i])
  }

  function EncodeAll(vs: seq<Value>): (e: Bytes)
    requires AllWritable(vs)
  {
    if vs == [] then [] else EncodeAll(vs[..|vs| - 1]) + Encoding(vs[|vs| - 1])
  }

  /** Reads of the kinds ks, one after another from pos: the values and the final cursor. */
  function DecodeAll(ks: seq<Kind>, buf: Bytes, pos: nat): (r: (seq<Value>, nat))
    ensures |r.0| == |ks|
  {
    if ks == [] then ([], pos)
    else
      var (vs, p) := DecodeAll(ks[..|ks| - 1], buf, pos);
      var (v, p') := Decode(ks[|ks| - 1], buf, p);
      (vs + [v], p')
  }

  function KindsOf(vs: seq<Value>): (ks: seq<Kind>)
    ensures |ks| == |vs|
  {
    seq(|vs|, i requires 0 <= i < |vs| => KindOf(vs[i]))
  }

  /** Encoding a concatenation is concatenating the encodings, so writes chain left to right. */
  lemma {:induction false} EncodeAllAppend(xs: seq<Value>, ys: seq<Value>)
    requires AllWritable(xs)
    requires AllWritable(ys)
    ensures AllWritable(xs + ys)
    ensures EncodeAll(xs + ys) == EncodeAll(xs) + EncodeAll(ys)
  {
    forall i | 0 <= i < |xs + ys| ensures Writable((xs + ys)[i]) {
      if i < |xs| { assert (xs + ys)[i] == xs[i]; } else { assert (xs + ys)[i] == ys[i - |xs|]; }
    }
    if ys == [] {
      assert xs + ys == xs;
    } else {
      var init := ys[..|ys| - 1];
      assert (xs + ys)[..|xs + ys| - 1] == xs + init;
      EncodeAllAppend(xs, init);
    }
  }

  /** Sequence round trip: reading the written values' kinds in order yields the values. */
  lemma {:induction false} DecodeAllEncodeAll(vs: seq<Value>, prefix: Bytes, suffix: Bytes)
    requires AllWritable(vs)
    ensures DecodeAll(KindsOf(vs), prefix + EncodeAll(vs) + suffix, |prefix|)
         == (vs, |prefix| + |EncodeAll(vs)|)
  {
    if vs != [] {
      var init, last := vs[..|vs| - 1], vs[|vs| - 1];
      EncodeAllSplit(vs);
      var e1, e2 := EncodeAll(init), Encoding(last);
      var mid := prefix + e1;
      var buf := prefix + EncodeAll(vs) + suffix;
      AppendAssoc(prefix, e1, e2);
      AppendAssoc(mid, e2, suffix);
      assert buf == mid + (e2 + suffix);
      assert buf == mid + e2 + suffix;
      DecodeAllEncodeAll(init, prefix, e2 + suffix);
      DecodeEncoding(last, mid, suffix);
      DecodeAllStep(vs, buf, |prefix|, |mid|, |mid| + |e2|);
    }
  }

  lemma AppendAssoc<T>(a: seq<T>, b: seq<T>, c: seq<T>)
    ensures (a + b) + c == a + (b + c)
  {
  }

  /** The encoding of a non-empty sequence ends with its last element's encoding. */
  lemma EncodeAllSplit(vs: seq<Value>)
    requires AllWritable(vs) && vs != []
    ensures AllWritable(vs[..|vs| - 1]) && Writable(vs[|vs| - 1])
    ensures EncodeAll(vs) == EncodeAll(vs[..|vs| - 1]) + Encoding(vs[|vs| - 1])
  {
  }

  /** Encoding one more element of a sequence appends that element's encoding. */
  lemma EncodeAllSnoc(xs: seq<Value>, i: nat)
    requires AllWritable(xs) && i < |xs|
    ensures AllWritable(xs[..i]) && AllWritable(xs[..i + 1]) && Writable(xs[i])
    ensures EncodeAll(xs[..i + 1]) == EncodeAll(xs[..i]) + Encoding(xs[i])
  {
    assert xs[..i + 1][..i] == xs[..i];
  }

  /** One step of the sequence round trip: if the first |vs| - 1 kinds read back their values
      ending at mid, and the last value reads back from mid, the whole sequence reads back. */
  lemma DecodeAllStep(vs: seq<Value>, buf: Bytes, pos: nat, mid: nat, end: nat)
    requires vs != []
    requires DecodeAll(KindsOf(vs[..|vs| - 1]), buf, pos) == (vs[..|vs| - 1], mid)
    requires Decode(KindOf(vs[|vs| - 1]), buf, mid) == (vs[|vs| - 1], end)
    ensures DecodeAll(KindsOf(vs), buf, pos) == (vs, end)
  {
    assert KindsOf(vs)[..|vs| - 1] == KindsOf(vs[..|vs| - 1]);
    assert vs[..|vs| - 1] + [vs[|vs| - 1]] == vs;
  }

  /** Past the end of the buffer every remaining read yields its default. */
  lemma {:induction false} DecodeAllAtEnd(ks: seq<Kind>, buf: Bytes, pos: nat)
    requires pos >= |buf|
    ensures DecodeAll(ks, buf, pos).1 == pos
    ensures forall i :: 0 <= i < |ks| ==> DecodeAll(ks, buf, pos).0[i] == Default(ks[i])
  {
    if ks != [] {
      DecodeAllAtEnd(ks[..|ks| - 1], buf, pos);
      DecodeAtEnd(ks[|ks| - 1], buf, pos);
    }
  }

  function Repeat(k: Kind, n: nat): (ks: seq<Kind>)
    ensures |ks| == n
  {
    seq(n, _ => k)
  }

  /** operator<< on a vector: the element count as a uint32, then each element in order. */
  function EncodeVector(xs: seq<Value>): (e: Bytes)
    requires AllWritable(xs)
  {
    ToBytes(|xs| % 0x1_0000_0000, 4) + EncodeAll(xs)
  }

  /** operator>> on a vector of kind k: read the count, then that many elements. */
  function DecodeVector(k: Kind, buf: Bytes, pos: nat): (r: (seq<Value>, nat))
  {
    var (n, p) := ReadUnsigned(buf, pos, 4);
    DecodeAll(Repeat(k, n), buf, p)
  }

  /** Vector round trip. */
  lemma DecodeVectorEncodeVector(k: Kind, xs: seq<Value>, prefix: Bytes, suffix: Bytes)
    requires |xs| < 0x1_0000_0000 && AllWritable(xs)
    requires forall i :: 0 <= i < |xs| ==> KindOf(xs[i]) == k
    ensures DecodeVector(k, prefix + EncodeVector(xs) + suffix, |prefix|)
         == (xs, |prefix| + |EncodeVector(xs)|)
  {
    VectorCountRead(xs, prefix, suffix);
    VectorElementsLayout(xs, prefix, suffix);
    DecodeVectorFrom(k, xs, prefix + EncodeVector(xs) + suffix, |prefix|, |prefix| + |EncodeVector(xs)|,
                     prefix + ToBytes(|xs|, 4), suffix);
  }

  lemma VectorCountRead(xs: seq<Value>, prefix: Bytes, suffix: Bytes)
    requires |xs| < 0x1_0000_0000 && AllWritable(xs)
    ensures ReadUnsigned(prefix + EncodeVector(xs) + suffix, |prefix|, 4) == (|xs|, |prefix| + 4)
  {
    PowValues();
    VectorLayout(xs, prefix, suffix);
    ReadUnsignedToBytes(|xs|, 4, prefix, EncodeAll(xs) + suffix);
  }

  /** A vector read is its count read followed by that many element reads, and the
      elements, written right after the count bytes (ending head), read back in order. */
  lemma DecodeVectorFrom(k: Kind, xs: seq<Value>, buf: Bytes, pos: nat, end: nat, head: Bytes, suffix: Bytes)
    requires AllWritable(xs) && forall i :: 0 <= i < |xs| ==> KindOf(xs[i]) == k
    requires buf == head + EncodeAll(xs) + suffix && |head| == pos + 4 && end == |head| + |EncodeAll(xs)|
    requires ReadUnsigned(buf, pos, 4) == (|xs|, pos + 4)
    ensures DecodeVector(k, buf, pos) == (xs, end)
  {
    DecodeAllEncodeAll(xs, head, suffix);
    assert Repeat(k, |xs|) == KindsOf(xs);
  }

  /** The bytes of a written vector: the count bytes, then the elements and what follows. */
  lemma VectorLayout(xs: seq<Value>, prefix: Bytes, suffix: Bytes)
    requires |xs| < 0x1_0000_0000 && AllWritable(xs)
    ensures prefix + EncodeVector(xs) + suffix == prefix + ToBytes(|xs|, 4) + (EncodeAll(xs) + suffix)
  {
    assert |xs| % 0x1_0000_0000 == |xs|;
    var count, body := ToBytes(|xs|, 4), EncodeAll(xs);
    assert EncodeVector(xs) == count + body;
    AppendAssoc(prefix, count, body);
    AppendAssoc(prefix + count, body, suffix);
  }

  /** The same bytes, read as the count together with what precedes it, then the elements. */
  lemma VectorElementsLayout(xs: seq<Value>, prefix: Bytes, suffix: Bytes)
    requires |xs| < 0x1_0000_0000 && AllWritable(xs)
    ensures prefix + EncodeVector(xs) + suffix == (prefix + ToBytes(|xs|, 4)) + EncodeAll(xs) + suffix
    ensures |EncodeVector(xs)| == 4 + |EncodeAll(xs)|
  {
    assert |xs| % 0x1_0000_0000 == |xs|;
    var count, body := ToBytes(|xs|, 4), EncodeAll(xs);
    assert EncodeVector(xs) == count + body;
    AppendAssoc(prefix, count, body);
  }

  /** A vector read always produces exactly the element count it read (0 when the count
      itself is unreadable), and once the bytes run out the remaining elements are defaults. */
  lemma DecodeVectorShape(k: Kind, buf: Bytes, pos: nat)
    ensures |DecodeVector(k, buf, pos).0| == ReadUnsigned(buf, pos, 4).0
    ensures pos + 4 > |buf| ==> DecodeVector(k, buf, pos) == ([], pos)
    ensures ReadUnsigned(buf, pos, 4).1 >= |buf| ==>
      forall i :: 0 <= i < |DecodeVector(k, buf, pos).0| ==> DecodeVector(k, buf, pos).0[i] == Default(k)
  {
    var (n, p) := ReadUnsigned(buf, pos, 4);
    if p >= |buf| {
      DecodeAllAtEnd(Repeat(k, n), buf, p);
    }
  }

  // ---------------------------------------------------------------------------
  // The stream object

  class Stream {
    var buffer: Bytes
    var gpos: nat
    var ppos: nat

    /** alloc(numBytes): an empty stream; numBytes only reserves capacity. */
    constructor (numBytes: nat := DefaultCapacity)
      ensures buffer == [] && gpos == 0 && ppos == 0
    {
      buffer, gpos, ppos := [], 0, 0;
    }

    /** alloc(data, numBytes): a stream holding a copy of data, both cursors at 0. */
    constructor FromBytes(data: Bytes)
      ensures buffer == data && gpos == 0 && ppos == 0
    {
      buffer, gpos, ppos := data, 0, 0;
    }

    method SeekG(pos: nat)
      modifies this`gpos
      ensures gpos == pos
    {
      gpos := pos;
    }

    method SeekP(pos: nat)
      modifies this`ppos
      ensures ppos == pos
    {
      ppos := pos;
    }

    function TellG(): nat
      reads this
    {
      gpos
    }

    function TellP(): nat
      reads this
    {
      ppos
    }

    function Size(): nat
      reads this
    {
      |buffer|
    }

    function Eof(): bool
      reads this
    {
      gpos >= |buffer|
    }

    // --- writes: always appended at the end of the buffer, whatever seekp set ---

    method WriteBool(data: bool)
      modifies this`buffer, this`ppos
      ensures buffer == old(buffer) + Encoding(Bool(data)) && ppos == old(ppos) + 1
    {
      buffer := buffer + [if data then 1 else 0];
      ppos := ppos + 1;
    }

    method WriteU8(data: uint8)
      modifies this`buffer, this`ppos
      ensures buffer == old(buffer) + Encoding(U8(data)) && ppos == old(ppos) + 1
    {
      buffer := buffer + [data];
      ppos := ppos + 1;
    }

    method WriteU16(data: uint16)
      modifies this`buffer, this`ppos
      ensures buffer == old(buffer) + Encoding(U16(data)) && ppos == old(ppos) + 2
    {
      var buff := [ByteOf(data, 1), ByteOf(data, 0)];
      WrittenBytes(data, 2, buff);
      buffer := buffer + buff;
      ppos := ppos + 2;
    }

    method WriteU32(data: uint32)
      modifies this`buffer, this`ppos
      ensures buffer == old(buffer) + Encoding(U32(data)) && ppos == old(ppos) + 4
    {
      var buff := [ByteOf(data, 3), ByteOf(data, 2), ByteOf(data, 1), ByteOf(data, 0)];
      WrittenBytes(data, 4, buff);
      buffer := buffer + buff;
      ppos := ppos + 4;
    }

    method WriteU64(data: uint64)
      modifies this`buffer, this`ppos
      ensures buffer == old(buffer) + Encoding(U64(data)) && ppos == old(ppos) + 8
    {
      var buff := [ByteOf(data, 7), ByteOf(data, 6), ByteOf(data, 5), ByteOf(data, 4),
                   ByteOf(data, 3), ByteOf(data, 2), ByteOf(data, 1), ByteOf(data, 0)];
      WrittenBytes(data, 8, buff);
      buffer := buffer + buff;
      ppos := ppos + 8;
    }

    /** write(std::time_t): the value cast to uint64_t. */
    method WriteTime(data: int64)
      modifies this`buffer, this`ppos
      ensures buffer == old(buffer) + Encoding(I64(data)) && ppos == old(ppos) + 8
    {
      WriteU64(data % 0x1_0000_0000_0000_0000);
    }

    /** write(string): the length as a uint32, then the bytes one at a time. */
    method WriteString(data: Bytes)
      requires |data| < 0x1_0000_0000
      modifies this`buffer, this`ppos
      ensures buffer == old(buffer) + Encoding(Str(data)) && ppos == old(ppos) + 4 + |data|
    {
      var len := |data|;
      WriteU32(len);
      var i := 0;
      while i < len
        invariant 0 <= i <= len
        invariant buffer == old(buffer) + ToBytes(len, 4) + data[..i]
        invariant ppos == old(ppos) + 4 + i
      {
        WriteU8(data[i]);
        assert data[..i + 1] == data[..i] + [data[i]];
        i := i + 1;
      }
      assert data[..len] == data;
    }

    method WriteColor(data: Color)
      modifies this`buffer, this`ppos
      ensures buffer == old(buffer) + Encoding(Col(data)) && ppos == old(ppos) + 4
    {
      WriteU8(data.r);
      WriteU8(data.g);
      WriteU8(data.b);
      WriteU8(data.a);
    }

    // --- reads: only the read cursor moves ---

    method ReadBool() returns (data: bool)
      modifies this`gpos
      ensures (Bool(data), gpos) == Decode(KBool, buffer, old(gpos))
    {
      if Eof() { data := false; return; }
      data := buffer[gpos] != 0;
      gpos := gpos + 1;
    }

    method ReadU8() returns (data: uint8)
      modifies this`gpos
      ensures (U8(data), gpos) == Decode(KU8, buffer, old(gpos))
    {
      if Eof() { data := 0; return; }
      data := buffer[gpos];
      gpos := gpos + 1;
    }

    method ReadI8() returns (data: int8)
      modifies this`gpos
      ensures (I8(data), gpos) == Decode(KI8, buffer, old(gpos))
    {
      if Eof() { data := 0; return; }
      var u := buffer[gpos];
      data := if u <= 0x7f then u else u as int - 0x100;
      gpos := gpos + 1;
    }

    method ReadU16() returns (data: uint16)
      modifies this`gpos
      ensures (U16(data), gpos) == Decode(KU16, buffer, old(gpos))
    {
      if gpos + 2 > |buffer| { data := 0; return; }
      var b := buffer[gpos..gpos + 2];
      data := b[0] as int * 0x100 + b[1];
      BigEndian2(b);
      gpos := gpos + 2;
    }

    method ReadI16() returns (data: int16)
      modifies this`gpos
      ensures (I16(data), gpos) == Decode(KI16, buffer, old(gpos))
    {
      var ui := ReadU16();
      PowValues();
      if ui <= 0x7fff {
        data := ui;
      } else {
        var diff: int := 0xffff - ui;
        data := -1 - diff;
      }
    }

    method ReadU32() returns (data: uint32)
      modifies this`gpos
      ensures (U32(data), gpos) == Decode(KU32, buffer, old(gpos))
    {
      if gpos + 4 > |buffer| { data := 0; return; }
      var b := buffer[gpos..gpos + 4];
      data := b[0] as int * 0x100_0000 + b[1] as int * 0x1_0000 + b[2] as int * 0x100 + b[3];
      BigEndian4(b);
      gpos := gpos + 4;
    }

    method ReadI32() returns (data: int32)
      modifies this`gpos
      ensures (I32(data), gpos) == Decode(KI32, buffer, old(gpos))
    {
      var ui := ReadU32();
      PowValues();
      if ui <= 0x7fff_ffff {
        data := ui;
      } else {
        var diff: int := 0xffff_ffff - ui;
        data := -1 - diff;
      }
    }

    method ReadU64() returns (data: uint64)
      modifies this`gpos
      ensures (U64(data), gpos) == Decode(KU64, buffer, old(gpos))
    {
      if gpos + 8 > |buffer| { data := 0; return; }
      var b := buffer[gpos..gpos + 8];
      BigEndian8(b);
      data := b[0] as int * 0x100_0000_0000_0000 + b[1] as int * 0x1_0000_0000_0000
            + b[2] as int * 0x100_0000_0000 + b[3] as int * 0x1_0000_0000 + b[4] as int * 0x100_0000
            + b[5] as int * 0x1_0000 + b[6] as int * 0x100 + b[7];
      gpos := gpos + 8;
    }

    /** read(int64_t), and read(std::time_t) where that is a separate overload. */
    method ReadI64() returns (data: int64)
      modifies this`gpos
      ensures (I64(data), gpos) == Decode(KI64, buffer, old(gpos))
    {
      var ui := ReadU64();
      PowValues();
      if ui <= 0x7fff_ffff_ffff_ffff {
        data := ui;
      } else {
        var diff: int := 0xffff_ffff_ffff_ffff - ui;
        data := -1 - diff;
      }
    }

    /** read(string): the uint32 length; then the payload if it is non-empty and wholly
        present, otherwise "" with no payload byte consumed. */
    method ReadString() returns (data: Bytes)
      modifies this`gpos
      ensures (Str(data), gpos) == Decode(KStr, buffer, old(gpos))
    {
      var len := ReadU32();
      if len > 0 && gpos + len <= |buffer| {
        data := buffer[gpos..gpos + len];
        gpos := gpos + len;
      } else {
        data := [];
      }
    }

    method ReadColor() returns (data: Color)
      modifies this`gpos
      ensures (Col(data), gpos) == Decode(KColor, buffer, old(gpos))
    {
      var r := ReadU8();
      var g := ReadU8();
      var b := ReadU8();
      var a := ReadU8();
      data := Color(r, g, b, a);
    }

    // --- the scalar and vector stream operators of the header ---

    /** operator<< on a scalar: forwards to the write overload of v's type. */
    method Put(v: Value)
      requires Writable(v)
      modifies this`buffer, this`ppos
      ensures buffer == old(buffer) + Encoding(v) && ppos == old(ppos) + |Encoding(v)|
    {
      match v
      case Bool(b) => WriteBool(b);
      case U8(x) => WriteU8(x);
      case U16(x) => WriteU16(x);
      case U32(x) => WriteU32(x);
      case U64(x) => WriteU64(x);
      case I64(x) => WriteTime(x);
      case Str(s) => WriteString(s);
      case Col(c) => WriteColor(c);
    }

    /** operator>> on a scalar: forwards to the read overload of kind k. */
    method Get(k: Kind) returns (v: Value)
      modifies this`gpos
      ensures (v, gpos) == Decode(k, buffer, old(gpos))
    {
      match k
      case KBool => var x := ReadBool(); v := Bool(x);
      case KU8 => var x := ReadU8(); v := U8(x);
      case KI8 => var x := ReadI8(); v := I8(x);
      case KU16 => var x := ReadU16(); v := U16(x);
      case KI16 => var x := ReadI16(); v := I16(x);
      case KU32 => var x := ReadU32(); v := U32(x);
      case KI32 => var x := ReadI32(); v := I32(x);
      case KU64 => var x := ReadU64(); v := U64(x);
      case KI64 => var x := ReadI64(); v := I64(x);
      case KStr => var x := ReadString(); v := Str(x);
      case KColor => var x := ReadColor(); v := Col(x);
    }

    /** operator<< on a vector: the count as a uint32 (truncated), then every element. */
    method PutVector(xs: seq<Value>)
      requires AllWritable(xs)
      modifies this`buffer, this`ppos
      ensures buffer == old(buffer) + EncodeVector(xs) && ppos == old(ppos) + |EncodeVector(xs)|
    {
      WriteU32(|xs| % 0x1_0000_0000);
      ghost var pre := buffer;
      assert xs[..0] == [];
      var i := 0;
      while i < |xs|
        invariant 0 <= i <= |xs|
        invariant buffer == pre + EncodeAll(xs[..i])
        invariant ppos == old(ppos) + 4 + |EncodeAll(xs[..i])|
      {
        EncodeAllSnoc(xs, i);
        AppendAssoc(pre, EncodeAll(xs[..i]), Encoding(xs[i]));
        Put(xs[i]);
        i := i + 1;
      }
      assert xs[..|xs|] == xs;
      AppendAssoc(old(buffer), ToBytes(|xs| % 0x1_0000_0000, 4), EncodeAll(xs));
    }

    /** operator>> on a vector: read the count, then exactly that many elements in order. */
    method GetVector(k: Kind) returns (xs: seq<Value>)
      modifies this`gpos
      ensures (xs, gpos) == DecodeVector(k, buffer, old(gpos))
    {
      var size := ReadU32();
      ghost var start := gpos;
      xs := [];
      var i := 0;
      while i < size
        invariant 0 <= i <= size
        invariant (xs, gpos) == DecodeAll(Repeat(k, i), buffer, start)
      {
        var x := Get(k);
        assert Repeat(k, i + 1)[..i] == Repeat(k, i);
        xs := xs + [x];
        i := i + 1;
      }
    }
  }

  lemma BigEndian2(b: Bytes)
    requires |b| == 2
    ensures BigEndian(b) == b[0] as int * 0x100 + b[1]
  {
    assert b[..1][..0] == [] && b[..1][0] == b[0];
    assert BigEndian(b[..1]) == b[0];
  }

  lemma BigEndian4(b: Bytes)
    requires |b| == 4
    ensures BigEndian(b) == b[0] as int * 0x100_0000 + b[1] as int * 0x1_0000 + b[2] as int * 0x100 + b[3]
  {
    assert b[..3][..2] == b[..2] && b[..3][2] == b[2];
    BigEndian2(b[..2]);
    assert BigEndian(b[..3]) == BigEndian(b[..2]) * 256 + b[2];
  }

  lemma BigEndian8(b: Bytes)
    requires |b| == 8
    ensures BigEndian(b) == b[0] as int * 0x100_0000_0000_0000 + b[1] as int * 0x1_0000_0000_0000
                          + b[2] as int * 0x100_0000_0000 + b[3] as int * 0x1_0000_0000 + b[4] as int * 0x100_0000
                          + b[5] as int * 0x1_0000 + b[6] as int * 0x100 + b[7]
  {
    assert b[..7][..6] == b[..6] && b[..6][..5] == b[..5] && b[..5][..4] == b[..4];
    assert b[..7][6] == b[6] && b[..6][5] == b[5] && b[..5][4] == b[4];
    BigEndian4(b[..4]);
    assert BigEndian(b[..5]) == BigEndian(b[..4]) * 256 + b[4];
    assert BigEndian(b[..6]) == BigEndian(b[..5]) * 256 + b[5];
    assert BigEndian(b[..7]) == BigEndian(b[..6]) * 256 + b[6];
  }

  /** merge(a, b): a new stream holding a's bytes followed by b's; a null stream
      contributes nothing; both cursors of the result are 0. */
  method Merge(a: Stream?, b: Stream?) returns (r: Stream)
    ensures fresh(r)
    ensures r.buffer == (if a != null then a.buffer else []) + (if b != null then b.buffer else [])
    ensures r.gpos == 0 && r.ppos == 0
  {
    var bytes: Bytes := [];
    if a != null {
      bytes := bytes + a.buffer;
    }
    if b != null {
      bytes := bytes + b.buffer;
    }
    r := new Stream.FromBytes(bytes);
  }
}
