/** Lengths and strings of the RDB format: integer, compressed and verbatim forms. */
module RdbStrings {
  import opened Wrappers
  import opened RdbBytes

  const RDB_6BITLEN := 0
  const RDB_14BITLEN := 1
  const RDB_32BITLEN := 0x80
  const RDB_64BITLEN := 0x81
  const RDB_ENCVAL := 3

  const RDB_ENC_INT8 := 0
  const RDB_ENC_INT16 := 1
  const RDB_ENC_INT32 := 2
  const RDB_ENC_LZF := 3

  /** What rdbLoadLen returns on error: no length in use is as large. */
  const LENERR: uint64 := U64 - 1

  // ------------------------------------------------------------------ lengths

  /** rdbSaveLen. */
  function SaveLen(len: uint64): Bytes {
    if len < 64 then [len + RDB_6BITLEN * 64]
    else if len < 0x4000 then [len / 256 + RDB_14BITLEN * 64, len % 256]
    else if len < U32 then [RDB_32BITLEN] + BigEndian(len, 4)
    else [RDB_64BITLEN] + BigEndian(len, 8)
  }

  /** rdbLoadLenByRef: whether a special encoding follows, and the length or encoding; None for a
      short read or an unknown encoding. */
  function LoadLenByRef(i: In): (r: (Option<(bool, uint64)>, In))
    ensures |r.1.rest| <= |i.rest|
    ensures r.0.Some? ==> |r.1.rest| < |i.rest| && !r.1.bad
  {
    var (b, i1) := Read(i, 1);
    if b.None? then (None, i1)
    else
      var b0 := b.value[0];
      var kind := b0 / 64;
      if kind == RDB_ENCVAL then (Some((true, b0 % 64)), i1)
      else if kind == RDB_6BITLEN then (Some((false, b0 % 64)), i1)
      else if kind == RDB_14BITLEN then
        var (b1, i2) := Read(i1, 1);
        if b1.None? then (None, i2)
        else
          var len: uint64 := (b0 as int) % 64 * 256 + (b1.value[0] as int);
          (Some((false, len)), i2)
      else if b0 == RDB_32BITLEN then LoadWide(i1, 4)
      else if b0 == RDB_64BITLEN then LoadWide(i1, 8)
      else (None, i1)
  }

  function LoadWide(i: In, k: nat): (r: (Option<(bool, uint64)>, In))
    requires k == 4 || k == 8
    ensures |r.1.rest| <= |i.rest|
    ensures r.0.Some? ==> !r.1.bad
  {
    var (s, i1) := Read(i, k);
    if s.None? then (None, i1)
    else
      Powers();
      BigEndianBound(s.value);
      (Some((false, FromBigEndian(s.value))), i1)
  }

  /** rdbLoadLen: an error looks like the largest length. */
  function LoadLen(i: In): (r: (uint64, In))
    ensures |r.1.rest| <= |i.rest|
    ensures r.0 != LENERR ==> |r.1.rest| < |i.rest|
  {
    var (l, i1) := LoadLenByRef(i);
    (if l.Some? then l.value.1 else LENERR, i1)
  }

  /** Every 64-bit length comes back, and the rest of the input is untouched. */
  lemma LenByRefRoundTrip(len: uint64, rest: Bytes)
    ensures LoadLenByRef(In(SaveLen(len) + rest, false)) == (Some((false, len)), In(rest, false))
  {
    var s := SaveLen(len);
    ReadBack(s[..1], s[1..] + rest);
    assert s[..1] + (s[1..] + rest) == s + rest;
    if len < 64 {
      assert s[1..] + rest == rest;
    } else {
      ReadBack(s[1..], rest);
      if len >= 0x4000 {
        Powers();
        BigEndianInverts(len, if len < U32 then 4 else 8);
      }
    }
  }

  /** Through rdbLoadLen a length can be told from an error if and only if it is not the largest. */
  lemma LenRoundTrip(len: uint64, rest: Bytes)
    ensures LoadLen(In(SaveLen(len) + rest, false)) == (len, In(rest, false))
    ensures LoadLen(In(SaveLen(len) + rest, false)).0 != LoadLen(In([], false)).0 <==> len != U64 - 1
  {
    LenByRefRoundTrip(len, rest);
  }

  // ------------------------------------------------------------------ decimals

  function Digits(n: nat): (s: Bytes)
    ensures |s| > 0
  {
    if n < 10 then [48 + n] else Digits(n / 10) + [48 + n % 10]
  }

  /** ll2string. */
  function Decimal(v: int): Bytes {
    if v < 0 then [45] + Digits(-v) else Digits(v)
  }

  function Number(s: Bytes): int {
    if s == [] then 0 else Number(s[..|s| - 1]) * 10 + ((s[|s| - 1] as int) - 48)
  }

  function SignedNumber(s: Bytes): int {
    if s != [] && s[0] == 45 then -Number(s[1..]) else Number(s)
  }

  /** string2ll: exactly the canonical decimals of 64-bit integers parse. */
  function ParseDecimal(s: Bytes): Option<int64> {
    var v := SignedNumber(s);
    if Decimal(v) == s && -0x8000_0000_0000_0000 <= v < 0x8000_0000_0000_0000 then Some(v) else None
  }

  lemma {:induction false} NumberInverts(n: nat)
    ensures Number(Digits(n)) == n && Digits(n)[0] != 45
  {
    var s := Digits(n);
    if n >= 10 {
      NumberInverts(n / 10);
      assert s[..|s| - 1] == Digits(n / 10);
    } else {
      assert s[..|s| - 1] == [];
    }
  }

  lemma DecimalInverts(v: int)
    ensures SignedNumber(Decimal(v)) == v
  {
    hide Digits, Number;
    var n: nat := if v < 0 then -v else v;
    NumberInverts(n);
    if v < 0 { assert Decimal(v)[1..] == Digits(n); }
  }

  lemma ParseInverts(v: int64)
    ensures ParseDecimal(Decimal(v)) == Some(v)
  {
    hide Decimal, SignedNumber;
    DecimalInverts(v);
  }

  // ------------------------------------------------------------------ integers

  /** rdbEncodeInteger; the empty sequence stands for 0, not encodable. */
  function EncodeInteger(v: int64): Bytes {
    if -0x80 <= v < 0x80 then [RDB_ENCVAL * 64 + RDB_ENC_INT8] + LittleEndian(Unsigned(v, 1), 1)
    else if -0x8000 <= v < 0x8000 then [RDB_ENCVAL * 64 + RDB_ENC_INT16] + LittleEndian(Unsigned(v, 2), 2)
    else if -0x8000_0000 <= v < 0x8000_0000 then [RDB_ENCVAL * 64 + RDB_ENC_INT32] + LittleEndian(Unsigned(v, 4), 4)
    else []
  }

  /** rdbLoadIntegerObject, as the decimal string. */
  function LoadInteger(i: In, enc: nat): (r: (Option<Bytes>, In))
    ensures |r.1.rest| <= |i.rest|
    ensures r.0.Some? ==> !r.1.bad
  {
    if enc > RDB_ENC_INT32 then (None, i)
    else
      var k := if enc == RDB_ENC_INT8 then 1 else if enc == RDB_ENC_INT16 then 2 else 4;
      var (s, i1) := Read(i, k);
      if s.None? then (None, i1) else (Some(Decimal(Signed(FromLittleEndian(s.value), k))), i1)
  }

  lemma Wrapped(v: int, p: int)
    requires 0 < p && 0 <= v + p && v < p
    ensures v % p == if v < 0 then v + p else v
  {
    assert v < 0 ==> (v + p) % p == v + p;
  }

  lemma SignedInverts(v: int, k: nat)
    requires k == 1 || k == 2 || k == 4
    requires -(Pow256(k) / 2) <= v < Pow256(k) / 2
    ensures Signed(FromLittleEndian(LittleEndian(Unsigned(v, k), k)), k) == v
  {
    Powers();
    hide Pow256, LittleEndian, FromLittleEndian;
    Wrapped(v, Pow256(k));
    LittleEndianInverts(Unsigned(v, k), k);
  }

  lemma IntegerRoundTrip(v: int64, rest: Bytes)
    requires EncodeInteger(v) != []
    ensures var s := EncodeInteger(v);
      && s[0] / 64 == RDB_ENCVAL && s[0] % 64 <= RDB_ENC_INT32
      && LoadInteger(In(s[1..] + rest, false), s[0] % 64) == (Some(Decimal(v)), In(rest, false))
  {
    Powers();
    var s := EncodeInteger(v);
    var k := |s| - 1;
    ReadBack(s[1..], rest);
    SignedInverts(v, k);
  }

  // ----------------------------------------------------------------- compression

  /** lzf_compress, given the room it may use, and lzf_decompress, given the length to produce; the
      empty sequence is a failed compression. */
  datatype Lzf = Lzf(compress: (Bytes, nat) -> Bytes, decompress: (Bytes, nat) -> Option<Bytes>)

  /** What is taken from the library: what compress gives, decompress turns back. */
  ghost predicate LzfInverts(z: Lzf) {
    forall s: Bytes, room: nat :: z.compress(s, room) != [] ==>
      |z.compress(s, room)| <= room && z.decompress(z.compress(s, room), |s|) == Some(s)
  }

  /** rdbSaveLzfBlob. */
  function SaveLzfBlob(data: Bytes, len: nat): Bytes
    requires |data| < U64 && len < U64
  {
    [RDB_ENCVAL * 64 + RDB_ENC_LZF] + SaveLen(|data|) + SaveLen(len) + data
  }

  /** rdbLoadLzfStringObject. */
  function LoadLzf(i: In, z: Lzf): (r: (Option<Bytes>, In))
    ensures |r.1.rest| <= |i.rest|
    ensures r.0.Some? ==> !r.1.bad
  {
    var (clen, i1) := LoadLen(i);
    if clen == LENERR then (None, i1)
    else
      var (len, i2) := LoadLen(i1);
      if len == LENERR then (None, i2)
      else
        var (c, i3) := Read(i2, clen);
        if c.None? then (None, i3)
        else
          var d := z.decompress(c.value, len);
          if d.Some? && |d.value| == len then (d, i3) else (None, i3)
  }

  lemma LzfRoundTrip(data: Bytes, s: Bytes, z: Lzf, rest: Bytes)
    requires |data| < U64 - 1 && |s| < U64 - 1 && z.decompress(data, |s|) == Some(s)
    ensures LoadLzf(In(SaveLzfBlob(data, |s|)[1..] + rest, false), z) == (Some(s), In(rest, false))
  {
    hide LoadLen, SaveLen;
    var blob := SaveLzfBlob(data, |s|)[1..];
    assert blob + rest == SaveLen(|data|) + (SaveLen(|s|) + (data + rest));
    LenRoundTrip(|data|, SaveLen(|s|) + (data + rest));
    LenRoundTrip(|s|, data + rest);
    ReadBack(data, rest);
  }

  // --------------------------------------------------------------------- strings

  /** How the server is set up: the compressor, and whether it is used. */
  datatype Codec = Codec(lzf: Lzf, compression: bool)

  function IntegerForm(s: Bytes): Bytes {
    if |s| > 11 then []
    else match ParseDecimal(s)
      case Some(v) => EncodeInteger(v)
      case None => []
  }

  function LzfForm(c: Codec, s: Bytes): Bytes
    requires |s| < U64
  {
    if !c.compression || |s| <= 20 then []
    else
      var out := c.lzf.compress(s, |s| - 4);
      if out == [] || |out| >= U64 then [] else SaveLzfBlob(out, |s|)
  }

  /** rdbSaveRawString. */
  function SaveString(c: Codec, s: Bytes): (r: Bytes)
    requires |s| < U64
    ensures r != []
  {
    if IntegerForm(s) != [] then IntegerForm(s)
    else if LzfForm(c, s) != [] then LzfForm(c, s)
    else SaveLen(|s|) + s
  }

  /** rdbGenericLoadStringObject. */
  function LoadString(c: Codec, i: In): (r: (Option<Bytes>, In))
    ensures |r.1.rest| <= |i.rest|
    ensures r.0.Some? ==> |r.1.rest| < |i.rest| && !r.1.bad
  {
    var (l, i1) := LoadLenByRef(i);
    if l.None? || l.value.1 == LENERR then (None, i1)
    else
      var (encoded, len) := l.value;
      if encoded then
        if len <= RDB_ENC_INT32 then LoadInteger(i1, len)
        else if len == RDB_ENC_LZF then LoadLzf(i1, c.lzf)
        else (None, i1)
      else if len == 0 then (Some([]), i1)
      else Read(i1, len)
  }

  lemma EncodedHead(b: byte, tail: Bytes)
    requires b / 64 == RDB_ENCVAL
    ensures LoadLenByRef(In([b] + tail, false)) == (Some((true, b % 64)), In(tail, false))
  {
    ReadBack([b], tail);
  }

  lemma LoadEncodedInteger(c: Codec, v: int64, rest: Bytes)
    requires EncodeInteger(v) != []
    ensures LoadString(c, In(EncodeInteger(v) + rest, false)) == (Some(Decimal(v)), In(rest, false))
  {
    hide LoadLenByRef, LoadLzf, LoadInteger, Decimal;
    var e := EncodeInteger(v);
    IntegerRoundTrip(v, rest);
    assert e + rest == [e[0]] + (e[1..] + rest);
    EncodedHead(e[0], e[1..] + rest);
    hide EncodeInteger;
  }

  lemma LoadCompressed(c: Codec, out: Bytes, s: Bytes, rest: Bytes)
    requires |out| < U64 - 1 && |s| < U64 - 1 && c.lzf.decompress(out, |s|) == Some(s)
    ensures LoadString(c, In(SaveLzfBlob(out, |s|) + rest, false)) == (Some(s), In(rest, false))
  {
    hide LoadLenByRef, LoadLzf, LoadInteger, SaveLen;
    var blob := SaveLzfBlob(out, |s|);
    assert blob + rest == [blob[0]] + (blob[1..] + rest);
    EncodedHead(blob[0], blob[1..] + rest);
    LzfRoundTrip(out, s, c.lzf, rest);
  }

  lemma LoadVerbatim(c: Codec, s: Bytes, rest: Bytes)
    requires |s| < U64 - 1
    ensures LoadString(c, In(SaveLen(|s|) + s + rest, false)) == (Some(s), In(rest, false))
  {
    hide LoadLenByRef, LoadLzf, LoadInteger, SaveLen;
    assert SaveLen(|s|) + s + rest == SaveLen(|s|) + (s + rest);
    LenByRefRoundTrip(|s|, s + rest);
    if s == [] { assert s + rest == rest; } else { ReadBack(s, rest); }
  }

  /** A string comes back whatever form it was saved in, and exactly the bytes written are used. */
  lemma StringRoundTrip(c: Codec, s: Bytes, rest: Bytes)
    requires |s| < U64 - 1 && LzfInverts(c.lzf)
    ensures LoadString(c, In(SaveString(c, s) + rest, false)) == (Some(s), In(rest, false))
  {
    hide LoadString, EncodeInteger, SaveLzfBlob, SaveLen;
    if IntegerForm(s) != [] {
      LoadEncodedInteger(c, ParseDecimal(s).value, rest);
    } else if LzfForm(c, s) != [] {
      LoadCompressed(c, c.lzf.compress(s, |s| - 4), s, rest);
    } else {
      LoadVerbatim(c, s, rest);
    }
  }

  /** A string object: raw bytes, or an integer held as such. */
  datatype Str = Raw(bytes: Bytes) | Int(v: int64)

  function Text(s: Str): Bytes {
    match s
    case Raw(b) => b
    case Int(v) => Decimal(v)
  }

  /** rdbSaveStringObject, with rdbSaveLongLongAsStringObject for integers. */
  function SaveStr(c: Codec, s: Str): Bytes
    requires s.Raw? ==> |s.bytes| < U64
  {
    match s
    case Raw(b) => SaveString(c, b)
    case Int(v) =>
      if EncodeInteger(v) != [] then EncodeInteger(v)
      else
        DecimalShort(v);
        SaveLen(|Decimal(v)|) + Decimal(v)
  }

  lemma DecimalShort(v: int64)
    ensures |Decimal(v)| <= 20
  {
    assert Pow10(10) == 100_0000_0000;
    assert Pow10(19) == 1000_0000_0000_0000_0000;
    DigitsShort(if v < 0 then -(v as int) else v, 19);
  }

  function Pow10(k: nat): nat {
    if k == 0 then 1 else 10 * Pow10(k - 1)
  }

  lemma {:induction false} DigitsShort(n: nat, k: nat)
    requires k > 0 && n < Pow10(k)
    ensures |Digits(n)| <= k
  {
    if n >= 10 { DigitsShort(n / 10, k - 1); }
  }

  lemma StrRoundTrip(c: Codec, s: Str, rest: Bytes)
    requires s.Raw? ==> |s.bytes| < U64 - 1
    requires LzfInverts(c.lzf)
    ensures LoadString(c, In(SaveStr(c, s) + rest, false)) == (Some(Text(s)), In(rest, false))
  {
    hide LoadString, EncodeInteger, SaveLen, Decimal;
    match s
    case Raw(b) => StringRoundTrip(c, b, rest);
    case Int(v) =>
      if EncodeInteger(v) != [] {
        LoadEncodedInteger(c, v, rest);
      } else {
        DecimalShort(v);
        LoadVerbatim(c, Decimal(v), rest);
      }
  }
}
