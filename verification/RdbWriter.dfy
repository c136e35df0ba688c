/** The saving side as it runs: each function appends to the stream and returns how many bytes it
    wrote, or -1 once the stream takes no more. */
module RdbWriter {
  import opened Wrappers
  import opened RdbBytes
  import opened RdbStrings
  import opened RdbStream
  import opened RdbObjects
  import opened RdbFile

  /** A stream: what has been written, and how many more bytes it will take. */
  datatype Sink = Sink(buf: Bytes, room: nat)

  /** The data was written from t to s and n says how much; when it does not fit, n is -1 and the
      stream holds as much of it as did. */
  ghost predicate Wrote(t: Sink, s: Sink, data: Bytes, n: int) {
    if |data| <= t.room then n == |data| && s == Sink(t.buf + data, t.room - |data|)
    else n == -1 && s == Sink(t.buf + data[..t.room], 0)
  }

  /** Of what is to be written from t on, nw bytes have been written and the rest is left. */
  ghost predicate Left(t: Sink, all: Bytes, s: Sink, nw: int, rest: Bytes) {
    s.buf + rest == t.buf + all && s.room - |rest| == t.room - |all| && nw + |rest| == |all|
  }

  lemma Begin(t: Sink, all: Bytes)
    ensures Left(t, all, t, 0, all)
  {
  }

  /** A step either ends everything, leaving what fitted, or takes its part off the rest. */
  lemma Advance(t: Sink, all: Bytes, s: Sink, nw: int, head: Bytes, tail: Bytes, s': Sink, n: int)
    requires Left(t, all, s, nw, head + tail) && Wrote(s, s', head, n)
    ensures if n == -1 then Wrote(t, s', all, -1) else Left(t, all, s', nw + n, tail)
  {
    if n == -1 {
      var whole := t.buf + all;
      assert |s.buf| + s.room == |t.buf| + t.room;
      assert s'.buf == (s.buf + (head + tail))[..|s.buf| + s.room];
      assert t.buf + all[..t.room] == whole[..|t.buf| + t.room];
    } else {
      assert s.buf + (head + tail) == s'.buf + tail;
    }
  }

  lemma Finish(t: Sink, all: Bytes, s: Sink, nw: int)
    requires Left(t, all, s, nw, [])
    ensures Wrote(t, s, all, nw)
  {
    assert s.buf + [] == s.buf;
  }

  // -------------------------------------------------------- integers byte by byte

  lemma ShiftStep(v: int, k: nat)
    requires k > 0
    ensures (v % Pow256(k)) % 256 == v % 256 && (v % Pow256(k)) / 256 == (v / 256) % Pow256(k - 1)
  {
    var p := Pow256(k - 1);
    hide Pow256;
    var a, b, r := v / 256 / p, v / 256 % p, v % 256;
    assert v == 256 * (v / 256) + r && v / 256 == p * a + b;
    assert v == (256 * p) * a + (256 * b + r) by { assert 256 * (p * a) == (256 * p) * a; }
    assert 256 * b + r < 256 * p;
    RemainderIs(v, 256 * p, a, 256 * b + r);
    PowStep(k);
  }

  lemma PowStep(k: nat)
    requires k > 0
    ensures Pow256(k) == 256 * Pow256(k - 1)
  {
  }

  lemma Grows(m: int, d: int)
    requires m > 0
    ensures (d >= 1 ==> m * d >= m) && (d <= -1 ==> m * d <= -m)
  {
  }

  lemma RemainderIs(v: int, m: int, q: int, r: int)
    requires 0 <= r < m && v == m * q + r
    ensures v % m == r
  {
    var k, x := v / m, v % m;
    assert v == m * k + x && 0 <= x < m;
    assert m * (k - q) == r - x by { assert m * (k - q) == m * k - m * q; }
    Grows(m, k - q);
  }

  /** The low bytes of an integer of either sign, taken off by shifting, are its two's complement. */
  lemma {:induction false} ShiftsAreTwosComplement(v: int, k: nat)
    ensures |LittleEndian(Unsigned(v, k), k)| == k
    ensures k > 0 ==> LittleEndian(Unsigned(v, k), k)[0] == v % 256
    ensures k > 0 ==> LittleEndian(Unsigned(v, k), k)[1..] == LittleEndian(Unsigned(v / 256, k - 1), k - 1)
  {
    if k > 0 { ShiftStep(v, k); }
  }

  /** rdbEncodeInteger fills the buffer; 0 if the value is too wide. */
  method EncodeInto(v: int64, enc: array<byte>) returns (n: nat)
    requires enc.Length >= 5
    modifies enc
    ensures n <= 5 && enc[..n] == EncodeInteger(v)
  {
    hide LittleEndian, Unsigned;
    var w: int := v;
    if -0x80 <= v < 0x80 {
      enc[0] := RDB_ENCVAL * 64 + RDB_ENC_INT8;
      enc[1] := w % 256;
      Bytes1(w);
      n := 2;
    } else if -0x8000 <= v < 0x8000 {
      enc[0] := RDB_ENCVAL * 64 + RDB_ENC_INT16;
      enc[1] := w % 256;
      enc[2] := w / 0x100 % 256;
      Bytes2(w);
      n := 3;
    } else if -0x8000_0000 <= v < 0x8000_0000 {
      enc[0] := RDB_ENCVAL * 64 + RDB_ENC_INT32;
      enc[1] := w % 256;
      enc[2] := w / 0x100 % 256;
      enc[3] := w / 0x1_0000 % 256;
      enc[4] := w / 0x100_0000 % 256;
      Bytes4(w);
      n := 5;
    } else {
      n := 0;
    }
  }

  lemma Bytes1(v: int)
    ensures LittleEndian(Unsigned(v, 1), 1) == [v % 256]
  {
    ShiftsAreTwosComplement(v, 1);
    hide LittleEndian, Unsigned;
  }

  lemma Bytes2(v: int)
    ensures LittleEndian(Unsigned(v, 2), 2) == [v % 256, v / 0x100 % 256]
  {
    hide LittleEndian, Unsigned;
    ShiftsAreTwosComplement(v, 2);
    Bytes1(v / 0x100);
  }

  lemma Bytes4(v: int)
    ensures LittleEndian(Unsigned(v, 4), 4) == [v % 256, v / 0x100 % 256, v / 0x1_0000 % 256, v / 0x100_0000 % 256]
  {
    hide LittleEndian, Unsigned;
    ShiftsAreTwosComplement(v, 4);
    ShiftsAreTwosComplement(v / 0x100, 3);
    assert v / 0x100 / 0x100 == v / 0x1_0000;
    assert v / 0x1_0000 / 0x100 == v / 0x100_0000;
    Bytes2(v / 0x1_0000);
  }

  /** A field as it is written. */
  function SaveField(z: Codec, f: Field, meta: bool, min: nat): Bytes
    requires FieldFits(f) && (f.expire.Some? ==> min <= f.expire.value)
  {
    (if meta then SaveLen(Ttl(f, min)) else []) + SaveString(z, f.name) + SaveString(z, f.value)
  }

  lemma FieldsStep(z: Codec, fs: seq<Field>, meta: bool, min: nat)
    requires fs != [] && forall f :: f in fs ==> FieldFits(f) && (f.expire.Some? ==> min <= f.expire.value)
    ensures FieldFits(fs[0])
      && SaveFields(z, fs, meta, min) == SaveField(z, fs[0], meta, min) + SaveFields(z, fs[1..], meta, min)
  {
    hide SaveLen, SaveString;
  }

  /** An entry of a pending list as it is written. */
  function SaveEntry(p: Pending, nacks: map<nat, Nack>, full: bool): Bytes
    requires full ==> p.ref in nacks
  {
    if full then p.id + SaveTime(nacks[p.ref].time) + SaveLen(nacks[p.ref].count) else p.id
  }

  lemma EntriesStep(pel: seq<Pending>, nacks: map<nat, Nack>, full: bool)
    requires pel != [] && (full ==> forall p :: p in pel ==> p.ref in nacks)
    ensures SaveEntries(pel, nacks, full) == SaveEntry(pel[0], nacks, full) + SaveEntries(pel[1..], nacks, full)
  {
    hide SaveLen, SaveTime;
  }

  lemma ElemShort(el: (Bytes, nat))
    requires ElemFits(el)
    ensures |el.0| < U64
  {
  }

  lemma PackShort(e: Env, p: (Bytes, Bytes))
    requires PackFits(e, p)
    ensures |p.0| < U64 && |p.1| < U64
  {
  }

  lemma TimeSize(t: Sink, s: Sink, time: int64, n: int)
    requires Wrote(t, s, SaveTime(time), n) && n != -1
    ensures n == 8
  {
  }

  lemma WroteSize(t: Sink, s: Sink, data: Bytes, n: int)
    requires Wrote(t, s, data, n)
    ensures n >= -1 && (n != -1 ==> n == |s.buf| - |t.buf| && n == |data|)
  {
  }

  lemma NotFailed(t: Sink, s: Sink, data: Bytes, n: int)
    requires Wrote(t, s, data, n) && n != -1
    ensures n >= 0
  {
  }

  /** An opcode or type as bytes. */
  function Op(b: byte): Bytes {
    [b]
  }

  lemma CountIs(t: Sink, s: Sink, data: Bytes, n: int)
    requires Wrote(t, s, data, n) && Left(t, data, s, n, [])
    ensures n == |data|
  {
  }

  lemma AuxShort(a: (Bytes, Bytes))
    requires AuxFits(a)
    ensures |a.0| < U64 && |a.1| < U64
  {
  }

  lemma BeforeSum(t: Sink, all: Bytes, body: Bytes, sum: Bytes, s: Sink, n: int)
    requires t.buf == [] && all == body + sum && Left(t, all, s, n, sum)
    ensures s.buf == body
  {
    assert (s.buf + sum)[..|s.buf|] == s.buf && (body + sum)[..|body|] == body;
    assert t.buf + all == all;
  }

  lemma WroteMeans(t: Sink, s: Sink, data: Bytes, n: int)
    requires t.buf == [] && Wrote(t, s, data, n)
    ensures n != -1 <==> |data| <= t.room
    ensures n != -1 ==> s.buf == data && s.room == t.room - |data|
    ensures n == -1 ==> |data| > t.room && s.buf == data[..t.room]
  {
  }

  lemma WroteCount(t: Sink, s: Sink, data: Bytes, n: int)
    requires Wrote(t, s, data, n) && n != -1
    ensures n == |data|
  {
  }

  // ------------------------------------------------------------ what is counted

  /** What the keys add to the count of rdbSaveDb: their slot information in bytes, and 1 each. */
  function Tally(its: seq<Item>): nat {
    if its == [] then 0 else |SaveSlot(its[0].slot)| + 1 + Tally(its[1..])
  }

  lemma ItemFirst(e: Env, its: seq<Item>, k: nat)
    requires k < |its| && forall it :: it in its ==> ItemFits(e, it)
    ensures ItemFits(e, its[k]) && forall it :: it in its[k + 1..] ==> ItemFits(e, it)
    ensures SaveItems(e, its[k..]) == SaveItem(e, its[k]) + SaveItems(e, its[k + 1..])
    ensures Tally(its[k..]) == |SaveSlot(its[k].slot)| + 1 + Tally(its[k + 1..])
  {
    hide SaveItem, SaveSlot, ItemFits;
    assert its[k..][0] == its[k] && its[k..][1..] == its[k + 1..];
  }

  lemma NoItems(e: Env, its: seq<Item>)
    ensures its == [] ==> SaveItems(e, its) == [] && Tally(its) == 0
  {
  }

  function DbTally(d: Database): nat
    requires Small(|d.items|)
  {
    if d.items == [] then 0
    else 2 + |SaveLen(d.id)| + |SaveLen(|d.items|)| + |SaveLen(Expires(d.items))| + Tally(d.items)
  }

  lemma {:induction false} TallyFallsShort(e: Env, its: seq<Item>)
    requires forall it :: it in its ==> ItemFits(e, it)
    ensures its == [] || Tally(its) < |SaveItems(e, its)|
    decreases |its|
  {
    hide SaveSlot, SaveExpire, SaveUsage, SaveString, SaveObject, ItemFits, TypeOf;
    if its != [] {
      assert ItemFits(e, its[0]);
      ItemIsLonger(e, its[0]);
      TallyFallsShort(e, its[1..]);
    }
  }

  lemma ItemIsLonger(e: Env, it: Item)
    requires ItemFits(e, it)
    ensures |SaveItem(e, it)| > |SaveSlot(it.slot)| + 1
  {
    hide SaveSlot, SaveExpire, SaveUsage, SaveString, SaveObject, Fits, TypeOf;
  }

  // ------------------------------------------------------------------- the stream

  /** How much rdbSaveObject writes but does not count: the earliest expire time of a hash. */
  function Uncounted(v: Value): nat {
    if (v.VHash? && HasExpire(v.fields)) || (v.VPacked? && v.kind == TYPE_HASH_LISTPACK_EX) then 8 else 0
  }

  class Writer {
    var buf: Bytes
    var room: nat

    function At(): Sink
      reads this
    {
      Sink(buf, room)
    }

    constructor (room: nat)
      ensures At() == Sink([], room)
    {
      this.buf, this.room := [], room;
    }

    /** rdbWriteRaw. */
    method WriteRaw(data: Bytes) returns (n: int)
      modifies this
      ensures Wrote(old(At()), At(), data, n)
    {
      if |data| <= room {
        buf, room := buf + data, room - |data|;
        return |data|;
      }
      buf, room := buf + data[..room], 0;
      return -1;
    }

    /** rdbSaveLen. */
    method WriteLen(len: uint64) returns (n: int)
      modifies this
      ensures Wrote(old(At()), At(), SaveLen(len), n)
    {
      hide BigEndian;
      ghost var t, all := At(), SaveLen(len);
      if len < 64 {
        n := WriteRaw([len + RDB_6BITLEN * 64]);
      } else if len < 0x4000 {
        n := WriteRaw([len / 256 + RDB_14BITLEN * 64, len % 256]);
      } else {
        var wide := len >= U32;
        var tag: byte := if wide then RDB_64BITLEN else RDB_32BITLEN;
        var digits := BigEndian(len, if wide then 8 else 4);
        n := WriteRaw([tag]);
        Begin(t, all);
        Advance(t, all, t, 0, [tag], digits, At(), n);
        if n == -1 { return; }
        ghost var s := At();
        var m := WriteRaw(digits);
        assert digits + [] == digits;
        Advance(t, all, s, n, digits, [], At(), m);
        if m == -1 { return -1; }
        n := n + m;
        Finish(t, all, At(), n);
      }
    }

    /** rdbSaveMillisecondTime. */
    method WriteTime(time: int64) returns (n: int)
      modifies this
      ensures Wrote(old(At()), At(), SaveTime(time), n)
    {
      n := WriteRaw(LittleEndian(Unsigned(time, 8), 8));
    }

    /** rdbSaveLzfBlob. */
    method WriteLzfBlob(data: Bytes, len: nat) returns (n: int)
      requires |data| < U64 && len < U64
      modifies this
      ensures Wrote(old(At()), At(), SaveLzfBlob(data, len), n)
    {
      hide SaveLen;
      ghost var t, all := At(), SaveLzfBlob(data, len);
      var tag: Bytes := [RDB_ENCVAL * 64 + RDB_ENC_LZF];
      assert all == tag + (SaveLen(|data|) + (SaveLen(len) + data));
      Begin(t, all);
      n := WriteRaw(tag);
      Advance(t, all, t, 0, tag, SaveLen(|data|) + (SaveLen(len) + data), At(), n);
      if n == -1 { return; }
      ghost var s := At();
      var m := WriteLen(|data|);
      Advance(t, all, s, n, SaveLen(|data|), SaveLen(len) + data, At(), m);
      if m == -1 { return -1; }
      n, s := n + m, At();
      m := WriteLen(len);
      Advance(t, all, s, n, SaveLen(len), data, At(), m);
      if m == -1 { return -1; }
      n, s := n + m, At();
      m := WriteRaw(data);
      assert data + [] == data;
      Advance(t, all, s, n, data, [], At(), m);
      if m == -1 { return -1; }
      n := n + m;
      Finish(t, all, At(), n);
    }

    /** A length and that many bytes. */
    method WriteVerbatim(data: Bytes) returns (n: int)
      requires |data| < U64
      modifies this
      ensures Wrote(old(At()), At(), SaveLen(|data|) + data, n)
    {
      hide SaveLen;
      ghost var t, all := At(), SaveLen(|data|) + data;
      Begin(t, all);
      n := WriteLen(|data|);
      Advance(t, all, t, 0, SaveLen(|data|), data, At(), n);
      if n == -1 { return; }
      ghost var s := At();
      if |data| > 0 {
        var m := WriteRaw(data);
        assert data + [] == data;
        Advance(t, all, s, n, data, [], At(), m);
        if m == -1 { return -1; }
        n := n + m;
      }
      Finish(t, all, At(), n);
    }

    /** rdbSaveRawString: the integer form if there is one, else the compressed form if it is
        shorter, else verbatim. */
    method WriteString(z: Codec, data: Bytes) returns (n: int)
      requires |data| < U64
      modifies this
      ensures Wrote(old(At()), At(), SaveString(z, data), n)
    {
      hide EncodeInteger, ParseDecimal, SaveLen, Wrote;
      if |data| <= 11 {
        var v := ParseDecimal(data);
        if v.Some? {
          var enc := new byte[5];
          var k := EncodeInto(v.value, enc);
          if k > 0 {
            n := WriteRaw(enc[..k]);
            return;
          }
        }
      }
      if z.compression && |data| > 20 {
        var out := z.lzf.compress(data, |data| - 4);
        if out != [] && |out| < U64 {
          n := WriteLzfBlob(out, |data|);
          return;
        }
      }
      n := WriteVerbatim(data);
    }

    /** rdbSaveStringObject. */
    method WriteStr(z: Codec, str: Str) returns (n: int)
      requires str.Raw? ==> |str.bytes| < U64
      modifies this
      ensures Wrote(old(At()), At(), SaveStr(z, str), n)
    {
      hide EncodeInteger, SaveString, SaveLen, Decimal, Wrote;
      match str
      case Raw(data) => n := WriteString(z, data);
      case Int(v) =>
        var enc := new byte[5];
        var k := EncodeInto(v, enc);
        if k > 0 {
          n := WriteRaw(enc[..k]);
        } else {
          DecimalShort(v);
          n := WriteVerbatim(Decimal(v));
        }
    }

    // ---------------------------------------------------------------- collections

    /** One node of a list, compressed if it is held compressed. */
    method WriteNode(e: Env, x: Node) returns (n: int)
      requires NodeFits(e, x)
      modifies this
      ensures Wrote(old(At()), At(), SaveNode(e, x), n)
    {
      hide SaveLen, SaveString, SaveLzfBlob, Wrote, Left;
      ghost var t, all := At(), SaveNode(e, x);
      ghost var data := if x.stored.Some? then SaveLzfBlob(x.stored.value, |x.data|) else SaveString(e.z, x.data);
      Begin(t, all);
      n := WriteLen(x.container);
      Advance(t, all, t, 0, SaveLen(x.container), data, At(), n);
      if n == -1 { return; }
      ghost var s := At();
      var m;
      if x.stored.Some? {
        m := WriteLzfBlob(x.stored.value, |x.data|);
      } else {
        m := WriteString(e.z, x.data);
      }
      assert data + [] == data;
      Advance(t, all, s, n, data, [], At(), m);
      if m == -1 { return -1; }
      n := n + m;
      Finish(t, all, At(), n);
    }

    /** The nodes of a list, from head to tail. */
    method WriteNodes(e: Env, ns: seq<Node>) returns (n: int)
      requires |ns| < U64 && forall x :: x in ns ==> NodeFits(e, x)
      modifies this
      ensures Wrote(old(At()), At(), SaveLen(|ns|) + SaveNodes(e, ns), n)
    {
      hide SaveLen, SaveNode, Left, Wrote, NodeFits;
      ghost var t, all := At(), SaveLen(|ns|) + SaveNodes(e, ns);
      Begin(t, all);
      n := WriteLen(|ns|);
      Advance(t, all, t, 0, SaveLen(|ns|), SaveNodes(e, ns), At(), n);
      if n == -1 { return; }
      var k := 0;
      assert ns[0..] == ns;
      while k < |ns|
        invariant 0 <= k <= |ns|
        invariant Left(t, all, At(), n, SaveNodes(e, ns[k..]))
      {
        ghost var s := At();
        assert ns[k..][0] == ns[k] && ns[k..][1..] == ns[k + 1..];
        var m := WriteNode(e, ns[k]);
        Advance(t, all, s, n, SaveNode(e, ns[k]), SaveNodes(e, ns[k + 1..]), At(), m);
        if m == -1 { return -1; }
        n, k := n + m, k + 1;
      }
      Finish(t, all, At(), n);
    }

    /** The members of a set. */
    method WriteMembers(z: Codec, ms: seq<Bytes>) returns (n: int)
      requires |ms| < U64 && forall x :: x in ms ==> Small(|x|)
      modifies this
      ensures Wrote(old(At()), At(), SaveLen(|ms|) + SaveMembers(z, ms), n)
    {
      hide SaveLen, SaveString, Left, Wrote;
      ghost var t, all := At(), SaveLen(|ms|) + SaveMembers(z, ms);
      Begin(t, all);
      n := WriteLen(|ms|);
      Advance(t, all, t, 0, SaveLen(|ms|), SaveMembers(z, ms), At(), n);
      if n == -1 { return; }
      var k := 0;
      assert ms[0..] == ms;
      while k < |ms|
        invariant 0 <= k <= |ms|
        invariant Left(t, all, At(), n, SaveMembers(z, ms[k..]))
      {
        ghost var s := At();
        assert ms[k..][0] == ms[k] && ms[k..][1..] == ms[k + 1..];
        assert Small(|ms[k]|);
        var m := WriteString(z, ms[k]);
        Advance(t, all, s, n, SaveString(z, ms[k]), SaveMembers(z, ms[k + 1..]), At(), m);
        if m == -1 { return -1; }
        n, k := n + m, k + 1;
      }
      Finish(t, all, At(), n);
    }

    /** A member of a sorted set and its score. */
    method WriteElem(z: Codec, el: (Bytes, nat)) returns (n: int)
      requires ElemFits(el)
      modifies this
      ensures Wrote(old(At()), At(), SaveString(z, el.0) + SaveScore(el.1), n)
    {
      hide SaveString, Left, Wrote, LittleEndian;
      ghost var t, all := At(), SaveString(z, el.0) + SaveScore(el.1);
      ghost var r1 := SaveScore(el.1);
      assert all == SaveString(z, el.0) + r1;
      Begin(t, all);
      n := WriteString(z, el.0);
      Advance(t, all, t, 0, SaveString(z, el.0), r1, At(), n);
      if n == -1 { return; }
      assert SaveScore(el.1) + [] == SaveScore(el.1);
      ghost var s := At();
      var m := WriteRaw(LittleEndian(el.1, 8));
      Advance(t, all, s, n, SaveScore(el.1), [], At(), m);
      if m == -1 { return -1; }
      n := n + m;
      Finish(t, all, At(), n);
    }

    /** The elements of a sorted set, from the tail of the skip list backward. */
    method WriteElems(z: Codec, es: seq<(Bytes, nat)>) returns (n: int)
      requires |es| < U64 && forall x :: x in es ==> ElemFits(x)
      modifies this
      ensures Wrote(old(At()), At(), SaveLen(|es|) + SaveElems(z, es), n)
    {
      hide SaveLen, SaveString, SaveScore, Left, Wrote, ElemFits;
      ghost var t, all := At(), SaveLen(|es|) + SaveElems(z, es);
      Begin(t, all);
      n := WriteLen(|es|);
      Advance(t, all, t, 0, SaveLen(|es|), SaveElems(z, es), At(), n);
      if n == -1 { return; }
      var k := |es|;
      assert es[..k] == es;
      while k > 0
        invariant 0 <= k <= |es|
        invariant Left(t, all, At(), n, SaveElems(z, es[..k]))
      {
        ghost var s := At();
        var el := es[k - 1];
        assert ElemFits(el);
        ElemShort(el);
        assert es[..k][|es[..k]| - 1] == el && es[..k][..|es[..k]| - 1] == es[..k - 1];
        var m := WriteElem(z, el);
        Advance(t, all, s, n, SaveString(z, el.0) + SaveScore(el.1), SaveElems(z, es[..k - 1]), At(), m);
        if m == -1 { return -1; }
        n, k := n + m, k - 1;
      }
      Finish(t, all, At(), n);
    }

    /** A field of a hash, with its TTL if the hash has any. */
    method WriteField(z: Codec, f: Field, meta: bool, min: nat) returns (n: int)
      requires FieldFits(f) && (f.expire.Some? ==> min <= f.expire.value)
      modifies this
      ensures Wrote(old(At()), At(), SaveField(z, f, meta, min), n)
    {
      hide SaveLen, SaveString, Left, Wrote;
      ghost var t, all := At(), SaveField(z, f, meta, min);
      ghost var r1 := SaveString(z, f.name) + SaveString(z, f.value);
      ghost var ttl := if meta then SaveLen(Ttl(f, min)) else [];
      assert all == ttl + r1;
      assert [] + r1 == r1;
      Begin(t, all);
      n := 0;
      if meta {
        n := WriteLen(Ttl(f, min));
        Advance(t, all, t, 0, ttl, r1, At(), n);
        if n == -1 { return; }
      }
      ghost var s := At();
      var m := WriteString(z, f.name);
      Advance(t, all, s, n, SaveString(z, f.name), SaveString(z, f.value), At(), m);
      if m == -1 { return -1; }
      n, s := n + m, At();
      m := WriteString(z, f.value);
      assert SaveString(z, f.value) + [] == SaveString(z, f.value);
      Advance(t, all, s, n, SaveString(z, f.value), [], At(), m);
      if m == -1 { return -1; }
      n := n + m;
      Finish(t, all, At(), n);
    }

    /** The fields of a hash. */
    method WriteFields(z: Codec, fs: seq<Field>, meta: bool, min: nat) returns (n: int)
      requires |fs| < U64 && forall f :: f in fs ==> FieldFits(f) && (f.expire.Some? ==> min <= f.expire.value)
      modifies this
      ensures Wrote(old(At()), At(), SaveLen(|fs|) + SaveFields(z, fs, meta, min), n)
    {
      hide SaveLen, SaveString, Left, Wrote, FieldFits;
      ghost var t, all := At(), SaveLen(|fs|) + SaveFields(z, fs, meta, min);
      Begin(t, all);
      n := WriteLen(|fs|);
      Advance(t, all, t, 0, SaveLen(|fs|), SaveFields(z, fs, meta, min), At(), n);
      if n == -1 { return; }
      var k := 0;
      assert fs[0..] == fs;
      while k < |fs|
        invariant 0 <= k <= |fs|
        invariant Left(t, all, At(), n, SaveFields(z, fs[k..], meta, min))
      {
        ghost var s := At();
        assert fs[k..][0] == fs[k] && fs[k..][1..] == fs[k + 1..];
        assert FieldFits(fs[k]);
        FieldsStep(z, fs[k..], meta, min);
        var m := WriteField(z, fs[k], meta, min);
        Advance(t, all, s, n, SaveField(z, fs[k], meta, min), SaveFields(z, fs[k + 1..], meta, min), At(), m);
        if m == -1 { return -1; }
        n, k := n + m, k + 1;
      }
      Finish(t, all, At(), n);
    }

    /** A hash: the earliest expire time, if there is one, is written but not counted. */
    method WriteHash(z: Codec, fs: seq<Field>) returns (n: int)
      requires |fs| < U64 - 1 && forall f :: f in fs ==> FieldFits(f)
      modifies this
      ensures Wrote(old(At()), At(), SaveHash(z, fs), if n == -1 || !HasExpire(fs) then n else n + 8)
      ensures n >= -1
    {
      hide SaveLen, SaveTime, SaveFields, Left, Wrote, FieldFits, HasExpire, MinExpire;
      MinBound(fs);
      var min, meta := MinExpire(fs), HasExpire(fs);
      ghost var t, all, more := At(), SaveHash(z, fs), SaveLen(|fs|) + SaveFields(z, fs, meta, min);
      ghost var c := 0;
      Begin(t, all);
      if meta {
        assert all == SaveTime(min) + more;
        var res := WriteTime(min);
        Advance(t, all, t, 0, SaveTime(min), more, At(), res);
        if res == -1 { return -1; }
        c := 8;
        TimeSize(t, At(), min, res);
      } else {
        assert all == more;
      }
      ghost var s := At();
      n := WriteFields(z, fs, meta, min);
      assert more + [] == more;
      Advance(t, all, s, c, more, [], At(), n);
      if n == -1 { return; }
      Finish(t, all, At(), c + n);
      NotFailed(s, At(), more, n);
    }

    // -------------------------------------------------------------------- streams

    /** An entry of a pending list, with its NACK if the list is the group's. */
    method WriteEntry(p: Pending, nacks: map<nat, Nack>, full: bool) returns (n: int)
      requires full ==> p.ref in nacks
      modifies this
      ensures Wrote(old(At()), At(), SaveEntry(p, nacks, full), n)
    {
      hide SaveLen, SaveTime, Left, Wrote;
      ghost var t, all := At(), SaveEntry(p, nacks, full);
      ghost var r1: Bytes := if full then SaveTime(nacks[p.ref].time) + SaveLen(nacks[p.ref].count) else [];
      assert all == p.id + r1;
      Begin(t, all);
      n := WriteRaw(p.id);
      Advance(t, all, t, 0, p.id, r1, At(), n);
      if n == -1 { return; }
      if full {
        var nack := nacks[p.ref];
        ghost var s := At();
        var m := WriteTime(nack.time);
        Advance(t, all, s, n, SaveTime(nack.time), SaveLen(nack.count), At(), m);
        if m == -1 { return -1; }
        n, s := n + m, At();
        m := WriteLen(nack.count);
        assert SaveLen(nack.count) + [] == SaveLen(nack.count);
        Advance(t, all, s, n, SaveLen(nack.count), [], At(), m);
        if m == -1 { return -1; }
        n := n + m;
      }
      Finish(t, all, At(), n);
    }

    /** rdbSaveStreamPEL. */
    method WritePel(pel: seq<Pending>, nacks: map<nat, Nack>, full: bool) returns (n: int)
      requires Small(|pel|) && (full ==> forall p :: p in pel ==> p.ref in nacks)
      modifies this
      ensures Wrote(old(At()), At(), SaveLen(|pel|) + SaveEntries(pel, nacks, full), n)
    {
      hide SaveLen, SaveTime, Left, Wrote;
      ghost var t, all := At(), SaveLen(|pel|) + SaveEntries(pel, nacks, full);
      Begin(t, all);
      n := WriteLen(|pel|);
      Advance(t, all, t, 0, SaveLen(|pel|), SaveEntries(pel, nacks, full), At(), n);
      if n == -1 { return; }
      var k := 0;
      assert pel[0..] == pel;
      while k < |pel|
        invariant 0 <= k <= |pel|
        invariant Left(t, all, At(), n, SaveEntries(pel[k..], nacks, full))
      {
        ghost var s := At();
        assert pel[k..][0] == pel[k] && pel[k..][1..] == pel[k + 1..];
        EntriesStep(pel[k..], nacks, full);
        var m := WriteEntry(pel[k], nacks, full);
        Advance(t, all, s, n, SaveEntry(pel[k], nacks, full), SaveEntries(pel[k + 1..], nacks, full), At(), m);
        if m == -1 { return -1; }
        n, k := n + m, k + 1;
      }
      Finish(t, all, At(), n);
    }

    /** A consumer and the IDs it owns. */
    method WriteConsumer(z: Codec, c: Consumer) returns (n: int)
      requires ConsumerFits(c)
      modifies this
      ensures Wrote(old(At()), At(), SaveConsumer(z, c), n)
    {
      hide SaveString, SaveTime, SaveLen, SaveEntries, Left, Wrote;
      ghost var t, all := At(), SaveConsumer(z, c);
      ghost var r3 := SavePel(c.pel, map[], false);
      ghost var r2 := SaveTime(c.active) + r3;
      ghost var r1 := SaveTime(c.seen) + r2;
      assert all == SaveString(z, c.name) + r1;
      Begin(t, all);
      n := WriteString(z, c.name);
      Advance(t, all, t, 0, SaveString(z, c.name), r1, At(), n);
      if n == -1 { return; }
      ghost var s := At();
      var m := WriteTime(c.seen);
      Advance(t, all, s, n, SaveTime(c.seen), r2, At(), m);
      if m == -1 { return -1; }
      n := n + m;
      s := At();
      m := WriteTime(c.active);
      Advance(t, all, s, n, SaveTime(c.active), r3, At(), m);
      if m == -1 { return -1; }
      n := n + m;
      assert SavePel(c.pel, map[], false) + [] == SavePel(c.pel, map[], false);
      s := At();
      m := WritePel(c.pel, map[], false);
      Advance(t, all, s, n, SavePel(c.pel, map[], false), [], At(), m);
      if m == -1 { return -1; }
      n := n + m;
      Finish(t, all, At(), n);
    }

    /** rdbSaveStreamConsumers. */
    method WriteConsumers(z: Codec, cs: seq<Consumer>) returns (n: int)
      requires Small(|cs|) && forall c :: c in cs ==> ConsumerFits(c)
      modifies this
      ensures Wrote(old(At()), At(), SaveLen(|cs|) + SaveEachConsumer(z, cs), n)
    {
      hide SaveLen, SaveConsumer, Left, Wrote, ConsumerFits;
      ghost var t, all := At(), SaveLen(|cs|) + SaveEachConsumer(z, cs);
      Begin(t, all);
      n := WriteLen(|cs|);
      Advance(t, all, t, 0, SaveLen(|cs|), SaveEachConsumer(z, cs), At(), n);
      if n == -1 { return; }
      var k := 0;
      assert cs[0..] == cs;
      while k < |cs|
        invariant 0 <= k <= |cs|
        invariant Left(t, all, At(), n, SaveEachConsumer(z, cs[k..]))
      {
        ghost var s := At();
        assert cs[k..][0] == cs[k] && cs[k..][1..] == cs[k + 1..];
        assert ConsumerFits(cs[k]);
        var m := WriteConsumer(z, cs[k]);
        Advance(t, all, s, n, SaveConsumer(z, cs[k]), SaveEachConsumer(z, cs[k + 1..]), At(), m);
        if m == -1 { return -1; }
        n, k := n + m, k + 1;
      }
      Finish(t, all, At(), n);
    }

    /** A consumer group. */
    method WriteGroup(z: Codec, g: Group) returns (n: int)
      requires GroupFits(g)
      modifies this
      ensures Wrote(old(At()), At(), SaveGroup(z, g), n)
    {
      hide SaveString, SaveLen, SaveEntries, SaveEachConsumer, ConsumerFits, Left, Wrote;
      ghost var t, all := At(), SaveGroup(z, g);
      ghost var r5 := (SaveLen(|g.consumers|) + SaveEachConsumer(z, g.consumers));
      ghost var r4 := SavePel(g.pel, g.nacks, true) + r5;
      ghost var r3 := SaveLen(g.entriesRead) + r4;
      ghost var r2 := SaveLen(g.lastSeq) + r3;
      ghost var r1 := SaveLen(g.lastMs) + r2;
      assert all == SaveString(z, g.name) + r1;
      Begin(t, all);
      n := WriteString(z, g.name);
      Advance(t, all, t, 0, SaveString(z, g.name), r1, At(), n);
      if n == -1 { return; }
      ghost var s := At();
      var m := WriteLen(g.lastMs);
      Advance(t, all, s, n, SaveLen(g.lastMs), r2, At(), m);
      if m == -1 { return -1; }
      n := n + m;
      s := At();
      m := WriteLen(g.lastSeq);
      Advance(t, all, s, n, SaveLen(g.lastSeq), r3, At(), m);
      if m == -1 { return -1; }
      n := n + m;
      s := At();
      m := WriteLen(g.entriesRead);
      Advance(t, all, s, n, SaveLen(g.entriesRead), r4, At(), m);
      if m == -1 { return -1; }
      n := n + m;
      s := At();
      m := WritePel(g.pel, g.nacks, true);
      Advance(t, all, s, n, SavePel(g.pel, g.nacks, true), r5, At(), m);
      if m == -1 { return -1; }
      n := n + m;
      assert (SaveLen(|g.consumers|) + SaveEachConsumer(z, g.consumers)) + []
        == (SaveLen(|g.consumers|) + SaveEachConsumer(z, g.consumers));
      s := At();
      m := WriteConsumers(z, g.consumers);
      Advance(t, all, s, n, (SaveLen(|g.consumers|) + SaveEachConsumer(z, g.consumers)), [], At(), m);
      if m == -1 { return -1; }
      n := n + m;
      Finish(t, all, At(), n);
    }

    /** The consumer groups of a stream. */
    method WriteGroups(z: Codec, gs: seq<Group>) returns (n: int)
      requires Small(|gs|) && forall g :: g in gs ==> GroupFits(g)
      modifies this
      ensures Wrote(old(At()), At(), SaveLen(|gs|) + SaveGroups(z, gs), n)
    {
      hide SaveLen, SaveGroup, Left, Wrote, GroupFits;
      ghost var t, all := At(), SaveLen(|gs|) + SaveGroups(z, gs);
      Begin(t, all);
      n := WriteLen(|gs|);
      Advance(t, all, t, 0, SaveLen(|gs|), SaveGroups(z, gs), At(), n);
      if n == -1 { return; }
      var k := 0;
      assert gs[0..] == gs;
      while k < |gs|
        invariant 0 <= k <= |gs|
        invariant Left(t, all, At(), n, SaveGroups(z, gs[k..]))
      {
        ghost var s := At();
        assert gs[k..][0] == gs[k] && gs[k..][1..] == gs[k + 1..];
        assert GroupFits(gs[k]);
        var m := WriteGroup(z, gs[k]);
        Advance(t, all, s, n, SaveGroup(z, gs[k]), SaveGroups(z, gs[k + 1..]), At(), m);
        if m == -1 { return -1; }
        n, k := n + m, k + 1;
      }
      Finish(t, all, At(), n);
    }

    /** A listpack of a stream under its key. */
    method WritePack(e: Env, p: (Bytes, Bytes)) returns (n: int)
      requires PackFits(e, p)
      modifies this
      ensures Wrote(old(At()), At(), SaveString(e.z, p.0) + SaveString(e.z, p.1), n)
    {
      hide SaveString, Left, Wrote;
      ghost var t, all := At(), SaveString(e.z, p.0) + SaveString(e.z, p.1);
      ghost var r1 := SaveString(e.z, p.1);
      assert all == SaveString(e.z, p.0) + r1;
      Begin(t, all);
      n := WriteString(e.z, p.0);
      Advance(t, all, t, 0, SaveString(e.z, p.0), r1, At(), n);
      if n == -1 { return; }
      assert SaveString(e.z, p.1) + [] == SaveString(e.z, p.1);
      ghost var s := At();
      var m := WriteString(e.z, p.1);
      Advance(t, all, s, n, SaveString(e.z, p.1), [], At(), m);
      if m == -1 { return -1; }
      n := n + m;
      Finish(t, all, At(), n);
    }

    /** The listpacks of a stream. */
    method WritePacks(e: Env, ps: seq<(Bytes, Bytes)>) returns (n: int)
      requires Small(|ps|) && forall p :: p in ps ==> PackFits(e, p)
      modifies this
      ensures Wrote(old(At()), At(), SaveLen(|ps|) + SavePacks(e, ps), n)
    {
      hide SaveLen, SaveString, Left, Wrote, PackFits;
      ghost var t, all := At(), SaveLen(|ps|) + SavePacks(e, ps);
      Begin(t, all);
      n := WriteLen(|ps|);
      Advance(t, all, t, 0, SaveLen(|ps|), SavePacks(e, ps), At(), n);
      if n == -1 { return; }
      var k := 0;
      assert ps[0..] == ps;
      while k < |ps|
        invariant 0 <= k <= |ps|
        invariant Left(t, all, At(), n, SavePacks(e, ps[k..]))
      {
        ghost var s := At();
        assert ps[k..][0] == ps[k] && ps[k..][1..] == ps[k + 1..];
        assert PackFits(e, ps[k]);
        PackShort(e, ps[k]);
        var m := WritePack(e, ps[k]);
        Advance(t, all, s, n, SaveString(e.z, ps[k].0) + SaveString(e.z, ps[k].1), SavePacks(e, ps[k + 1..]), At(), m);
        if m == -1 { return -1; }
        n, k := n + m, k + 1;
      }
      Finish(t, all, At(), n);
    }

    /** The length, the IDs and the counter of a stream. */
    method WriteHeads(hs: seq<uint64>) returns (n: int)
      modifies this
      ensures Wrote(old(At()), At(), SaveHeads(hs), n)
    {
      hide SaveLen, Left, Wrote;
      ghost var t, all := At(), SaveHeads(hs);
      Begin(t, all);
      n := 0;
      var k := 0;
      assert hs[0..] == hs;
      while k < |hs|
        invariant 0 <= k <= |hs|
        invariant Left(t, all, At(), n, SaveHeads(hs[k..]))
      {
        ghost var s := At();
        assert hs[k..][0] == hs[k] && hs[k..][1..] == hs[k + 1..];
        var m := WriteLen(hs[k]);
        Advance(t, all, s, n, SaveLen(hs[k]), SaveHeads(hs[k + 1..]), At(), m);
        if m == -1 { return -1; }
        n, k := n + m, k + 1;
      }
      Finish(t, all, At(), n);
    }

    /** A stream. */
    method WriteStream(e: Env, x: Stream) returns (n: int)
      requires Small(|x.packs|) && Small(|x.groups|) && (forall p :: p in x.packs ==> PackFits(e, p))
      requires forall g :: g in x.groups ==> GroupFits(g)
      modifies this
      ensures Wrote(old(At()), At(), SaveStream(e, x), n)
    {
      hide SaveLen, SavePacks, SaveHeads, SaveGroups, GroupFits, PackFits, Left, Wrote;
      ghost var t, all := At(), SaveStream(e, x);
      ghost var r2 := (SaveLen(|x.groups|) + SaveGroups(e.z, x.groups));
      ghost var r1 := SaveHeads(x.heads) + r2;
      assert all == (SaveLen(|x.packs|) + SavePacks(e, x.packs)) + r1;
      Begin(t, all);
      n := WritePacks(e, x.packs);
      Advance(t, all, t, 0, (SaveLen(|x.packs|) + SavePacks(e, x.packs)), r1, At(), n);
      if n == -1 { return; }
      ghost var s := At();
      var m := WriteHeads(x.heads);
      Advance(t, all, s, n, SaveHeads(x.heads), r2, At(), m);
      if m == -1 { return -1; }
      n := n + m;
      assert (SaveLen(|x.groups|) + SaveGroups(e.z, x.groups)) + []
        == (SaveLen(|x.groups|) + SaveGroups(e.z, x.groups));
      s := At();
      m := WriteGroups(e.z, x.groups);
      Advance(t, all, s, n, (SaveLen(|x.groups|) + SaveGroups(e.z, x.groups)), [], At(), m);
      if m == -1 { return -1; }
      n := n + m;
      Finish(t, all, At(), n);
    }

    // --------------------------------------------------------------------- objects

    /** A packed value; the earliest expire time of a small hash is written but not counted. */
    method WritePacked(z: Codec, kind: nat, blob: Bytes, min: int64) returns (n: int)
      requires Small(|blob|)
      modifies this
      ensures
        var ex := kind == TYPE_HASH_LISTPACK_EX;
        Wrote(old(At()), At(), (if ex then SaveTime(min) else []) + SaveString(z, blob),
              if n == -1 || !ex then n else n + 8)
      ensures n >= -1
    {
      hide SaveTime, SaveString, Left, Wrote;
      ghost var t, more := At(), SaveString(z, blob);
      if kind == TYPE_HASH_LISTPACK_EX {
        ghost var all := SaveTime(min) + more;
        Begin(t, all);
        var res := WriteTime(min);
        Advance(t, all, t, 0, SaveTime(min), more, At(), res);
        if res == -1 { return -1; }
        TimeSize(t, At(), min, res);
        ghost var s := At();
        n := WriteString(z, blob);
        assert more + [] == more;
        Advance(t, all, s, 8, more, [], At(), n);
        if n == -1 { return; }
        Finish(t, all, At(), 8 + n);
        NotFailed(s, At(), more, n);
      } else {
        assert [] + more == more;
        n := WriteString(z, blob);
        if n != -1 { NotFailed(t, At(), more, n); }
      }
    }

    /** rdbSaveObject: the bytes are all written, and counted but for the earliest expire time of a
        hash. */
    method WriteObject(e: Env, v: Value) returns (n: int)
      requires Fits(e, v)
      modifies this
      ensures Wrote(old(At()), At(), SaveObject(e, v), if n == -1 then -1 else n + Uncounted(v))
      ensures n >= -1 && (n != -1 ==> (n == |buf| - |old(buf)| <==> Uncounted(v) == 0))
    {
      hide SaveStr, SaveLen, SaveNodes, SaveMembers, SaveElems, SaveHash, SaveStream, SaveTime, SaveString, Wrote;
      match v {
        case VString(s) => n := WriteStr(e.z, s);
        case VList(ns) => n := WriteNodes(e, ns);
        case VSet(ms) => n := WriteMembers(e.z, ms);
        case VZset(es) => n := WriteElems(e.z, es);
        case VHash(fs) => n := WriteHash(e.z, fs);
        case VPacked(kind, blob, min) => n := WritePacked(e.z, kind, blob, min);
        case VStream(x) => n := WriteStream(e, x);
      }
      WroteSize(old(At()), At(), SaveObject(e, v), if n == -1 then -1 else n + Uncounted(v));
    }

    // ------------------------------------------------------------ keys and databases

    /** The slot information before the first key of a slot. */
    method WriteSlot(slot: Option<(uint64, uint64, uint64)>) returns (n: int)
      modifies this
      ensures Wrote(old(At()), At(), SaveSlot(slot), n)
    {
      hide SaveLen;
      match slot
      case None =>
        assert buf + [] == buf;
        n := 0;
      case Some((a, b, c)) => n := WriteSlotInfo(a, b, c);
    }

    /** The opcode and three numbers. */
    method WriteSlotInfo(a: uint64, b: uint64, c: uint64) returns (n: int)
      modifies this
      ensures Wrote(old(At()), At(), SaveSlot(Some((a, b, c))), n)
    {
      hide SaveLen, Left, Wrote;
      ghost var t, all := At(), SaveSlot(Some((a, b, c)));
      ghost var r3 := SaveLen(c);
      ghost var r2 := SaveLen(b) + r3;
      ghost var r1 := SaveLen(a) + r2;
      assert all == Op(OP_SLOT_INFO) + r1;
      Begin(t, all);
      n := WriteRaw([OP_SLOT_INFO]);
      Advance(t, all, t, 0, Op(OP_SLOT_INFO), r1, At(), n);
      if n == -1 { return; }
      ghost var s := At();
      var m := WriteLen(a);
      Advance(t, all, s, n, SaveLen(a), r2, At(), m);
      if m == -1 { return -1; }
      n := n + m;
      s := At();
      m := WriteLen(b);
      Advance(t, all, s, n, SaveLen(b), r3, At(), m);
      if m == -1 { return -1; }
      n := n + m;
      assert SaveLen(c) + [] == SaveLen(c);
      s := At();
      m := WriteLen(c);
      Advance(t, all, s, n, SaveLen(c), [], At(), m);
      if m == -1 { return -1; }
      n := n + m;
      Finish(t, all, At(), n);
    }

    method WriteExpire(time: int64) returns (n: int)
      modifies this
      ensures Wrote(old(At()), At(), SaveExpire(time), n)
    {
      hide SaveTime;
      if time == -1 {
        assert buf + [] == buf;
        return 0;
      }
      ghost var t, op, data := At(), Op(OP_EXPIRETIME_MS), SaveTime(time);
      Begin(t, op + data);
      n := WriteRaw([OP_EXPIRETIME_MS]);
      Advance(t, op + data, t, 0, op, data, At(), n);
      if n == -1 { return; }
      ghost var s := At();
      var m := WriteTime(time);
      assert data + [] == data;
      Advance(t, op + data, s, n, data, [], At(), m);
      if m == -1 { return -1; }
      n := n + m;
      Finish(t, op + data, At(), n);
    }

    method WriteUsage(u: Usage) returns (n: int)
      modifies this
      ensures Wrote(old(At()), At(), SaveUsage(u), n)
    {
      hide SaveLen;
      match u
      case NoUsage =>
        assert buf + [] == buf;
        n := 0;
      case Idle(seconds) =>
        ghost var t, op, data := At(), Op(OP_IDLE), SaveLen(seconds);
        Begin(t, op + data);
        n := WriteRaw([OP_IDLE]);
        Advance(t, op + data, t, 0, op, data, At(), n);
        if n == -1 { return; }
        ghost var s := At();
        var m := WriteLen(seconds);
        assert data + [] == data;
        Advance(t, op + data, s, n, data, [], At(), m);
        if m == -1 { return -1; }
        n := n + m;
        Finish(t, op + data, At(), n);
      case Freq(counter) =>
        ghost var t, op, data := At(), Op(OP_FREQ), Op(counter);
        assert op + data == SaveUsage(u);
        Begin(t, op + data);
        n := WriteRaw([OP_FREQ]);
        Advance(t, op + data, t, 0, op, data, At(), n);
        if n == -1 { return; }
        ghost var s := At();
        var m := WriteRaw([counter]);
        assert data + [] == data;
        Advance(t, op + data, s, n, data, [], At(), m);
        if m == -1 { return -1; }
        n := n + m;
        Finish(t, op + data, At(), n);
    }

    /** rdbSaveKeyValuePair, and the slot information before it.  The count is that of the slot
        information and 1 for the key, however many bytes it took. */
    method WriteItem(e: Env, it: Item) returns (count: int)
      requires ItemFits(e, it)
      modifies this
      ensures Wrote(old(At()), At(), SaveItem(e, it), if count == -1 then -1 else |SaveItem(e, it)|)
      ensures count == -1 || count == |SaveSlot(it.slot)| + 1
    {
      hide SaveSlot, SaveExpire, SaveUsage, SaveString, SaveObject, Left, Wrote, Fits, TypeOf;
      ghost var t, all := At(), SaveItem(e, it);
      var kind: byte := TypeOf(it.value);
      ghost var r5 := SaveObject(e, it.value);
      ghost var r4 := SaveString(e.z, it.key) + r5;
      ghost var r3 := Op(kind) + r4;
      ghost var r2 := SaveUsage(it.usage) + r3;
      ghost var r1 := SaveExpire(it.expire) + r2;
      assert all == SaveSlot(it.slot) + r1;
      Begin(t, all);
      ghost var n, s := 0, t;
      var m := WriteSlot(it.slot);
      Advance(t, all, s, n, SaveSlot(it.slot), r1, At(), m);
      if m == -1 { return -1; }
      count := m + 1;
      WroteCount(t, At(), SaveSlot(it.slot), m);
      n, s := n + m, At();
      m := WriteExpire(it.expire);
      Advance(t, all, s, n, SaveExpire(it.expire), r2, At(), m);
      if m == -1 { return -1; }
      n, s := n + m, At();
      m := WriteUsage(it.usage);
      Advance(t, all, s, n, SaveUsage(it.usage), r3, At(), m);
      if m == -1 { return -1; }
      n, s := n + m, At();
      m := WriteRaw([kind]);
      Advance(t, all, s, n, [kind], r4, At(), m);
      if m == -1 { return -1; }
      n, s := n + m, At();
      m := WriteString(e.z, it.key);
      Advance(t, all, s, n, SaveString(e.z, it.key), r5, At(), m);
      if m == -1 { return -1; }
      n, s := n + m, At();
      m := WriteObject(e, it.value);
      assert r5 + [] == r5;
      Advance(t, all, s, n, r5, [], At(), if m == -1 then -1 else m + Uncounted(it.value));
      if m == -1 { return -1; }
      n := n + m + Uncounted(it.value);
      Finish(t, all, At(), n);
      CountIs(t, At(), all, n);
    }

    /** The keys of a database. */
    method WriteItems(e: Env, its: seq<Item>) returns (count: int)
      requires forall it :: it in its ==> ItemFits(e, it)
      modifies this
      ensures Wrote(old(At()), At(), SaveItems(e, its), if count == -1 then -1 else |SaveItems(e, its)|)
      ensures count == -1 || count == Tally(its)
    {
      hide SaveItem, SaveItems, Left, Wrote, ItemFits, Tally;
      ghost var t, all := At(), SaveItems(e, its);
      Begin(t, all);
      ghost var n := 0;
      count := 0;
      var k := 0;
      assert its[0..] == its;
      while k < |its|
        invariant 0 <= k <= |its|
        invariant Left(t, all, At(), n, SaveItems(e, its[k..]))
        invariant count + Tally(its[k..]) == Tally(its)
      {
        ghost var s := At();
        ItemFirst(e, its, k);
        var m := WriteItem(e, its[k]);
        ghost var head := |SaveItem(e, its[k])|;
        Advance(t, all, s, n, SaveItem(e, its[k]), SaveItems(e, its[k + 1..]), At(), if m == -1 then -1 else head);
        if m == -1 { return -1; }
        n, count, k := n + head, count + m, k + 1;
      }
      NoItems(e, its[k..]);
      Finish(t, all, At(), n);
      CountIs(t, At(), all, n);
    }

    /** rdbSaveDb.  What it counts is the number of bytes only if there is nothing to write. */
    method WriteDb(e: Env, d: Database) returns (count: int)
      requires DbFits(e, d)
      modifies this
      ensures Wrote(old(At()), At(), SaveDb(e, d), if count == -1 then -1 else |SaveDb(e, d)|)
      ensures count == -1 || count == DbTally(d)
      ensures count >= -1 && (count != -1 ==> (count == |SaveDb(e, d)| <==> d.items == []))
    {
      hide SaveLen, SaveItems, ItemFits, Expires, Left, Wrote;
      ghost var t, all := At(), SaveDb(e, d);
      if d.items == [] {
        Begin(t, all);
        Finish(t, all, At(), 0);
        return 0;
      }
      ghost var r4 := SaveItems(e, d.items);
      ghost var r3 := SaveLen(Expires(d.items)) + r4;
      ghost var r2 := SaveLen(|d.items|) + r3;
      ghost var r1b := Op(OP_RESIZEDB) + r2;
      ghost var r1 := SaveLen(d.id) + r1b;
      assert all == Op(OP_SELECTDB) + r1;
      Begin(t, all);
      ghost var n, s := 0, t;
      var m := WriteRaw([OP_SELECTDB]);
      Advance(t, all, s, n, [OP_SELECTDB], r1, At(), m);
      if m == -1 { return -1; }
      n, s := n + m, At();
      m := WriteLen(d.id);
      Advance(t, all, s, n, SaveLen(d.id), r1b, At(), m);
      if m == -1 { return -1; }
      n, s := n + m, At();
      m := WriteRaw([OP_RESIZEDB]);
      Advance(t, all, s, n, [OP_RESIZEDB], r2, At(), m);
      if m == -1 { return -1; }
      n, s := n + m, At();
      m := WriteLen(|d.items|);
      Advance(t, all, s, n, SaveLen(|d.items|), r3, At(), m);
      if m == -1 { return -1; }
      n, s := n + m, At();
      m := WriteLen(Expires(d.items));
      Advance(t, all, s, n, SaveLen(Expires(d.items)), r4, At(), m);
      if m == -1 { return -1; }
      n, s := n + m, At();
      count := 2 + |SaveLen(d.id)| + |SaveLen(|d.items|)| + |SaveLen(Expires(d.items))|;
      assert n == count;
      m := WriteItems(e, d.items);
      assert r4 + [] == r4;
      Advance(t, all, s, n, r4, [], At(), if m == -1 then -1 else |r4|);
      if m == -1 { return -1; }
      count := count + m;
      TallyFallsShort(e, d.items);
      n := n + |r4|;
      Finish(t, all, At(), n);
      CountIs(t, At(), all, n);
    }

    method WriteDbs(e: Env, ds: seq<Database>) returns (ok: bool)
      requires forall d :: d in ds ==> DbFits(e, d)
      modifies this
      ensures Wrote(old(At()), At(), SaveDbs(e, ds), if ok then |SaveDbs(e, ds)| else -1)
    {
      hide SaveDb, Left, Wrote, DbFits;
      ghost var t, all := At(), SaveDbs(e, ds);
      Begin(t, all);
      ghost var n := 0;
      var k := 0;
      assert ds[0..] == ds;
      while k < |ds|
        invariant 0 <= k <= |ds|
        invariant Left(t, all, At(), n, SaveDbs(e, ds[k..]))
      {
        ghost var s := At();
        assert DbFits(e, ds[k]);
        assert ds[k..][0] == ds[k] && ds[k..][1..] == ds[k + 1..];
        var m := WriteDb(e, ds[k]);
        ghost var head := |SaveDb(e, ds[k])|;
        Advance(t, all, s, n, SaveDb(e, ds[k]), SaveDbs(e, ds[k + 1..]), At(), if m == -1 then -1 else head);
        if m == -1 { return false; }
        n, k := n + head, k + 1;
      }
      Finish(t, all, At(), n);
      CountIs(t, At(), all, n);
      return true;
    }

    /** rdbSaveAuxField. */
    method WriteAuxField(z: Codec, a: (Bytes, Bytes)) returns (n: int)
      requires AuxFits(a)
      modifies this
      ensures Wrote(old(At()), At(), Op(OP_AUX) + SaveString(z, a.0) + SaveString(z, a.1), n)
    {
      hide SaveString, Left, Wrote;
      ghost var t, all := At(), Op(OP_AUX) + SaveString(z, a.0) + SaveString(z, a.1);
      ghost var r2 := SaveString(z, a.1);
      ghost var r1 := SaveString(z, a.0) + r2;
      assert all == Op(OP_AUX) + r1;
      Begin(t, all);
      n := WriteRaw([OP_AUX]);
      Advance(t, all, t, 0, Op(OP_AUX), r1, At(), n);
      if n == -1 { return; }
      ghost var s := At();
      var m := WriteString(z, a.0);
      Advance(t, all, s, n, SaveString(z, a.0), r2, At(), m);
      if m == -1 { return -1; }
      n := n + m;
      assert SaveString(z, a.1) + [] == SaveString(z, a.1);
      s := At();
      m := WriteString(z, a.1);
      Advance(t, all, s, n, SaveString(z, a.1), [], At(), m);
      if m == -1 { return -1; }
      n := n + m;
      Finish(t, all, At(), n);
    }

    /** The informational fields. */
    method WriteAux(z: Codec, aux: seq<(Bytes, Bytes)>) returns (n: int)
      requires forall a :: a in aux ==> AuxFits(a)
      modifies this
      ensures Wrote(old(At()), At(), SaveAux(z, aux), n)
    {
      hide SaveString, Left, Wrote, AuxFits;
      ghost var t, all := At(), SaveAux(z, aux);
      Begin(t, all);
      n := 0;
      var k := 0;
      assert aux[0..] == aux;
      while k < |aux|
        invariant 0 <= k <= |aux|
        invariant Left(t, all, At(), n, SaveAux(z, aux[k..]))
      {
        ghost var s := At();
        assert aux[k..][0] == aux[k] && aux[k..][1..] == aux[k + 1..];
        assert AuxFits(aux[k]);
        AuxShort(aux[k]);
        var m := WriteAuxField(z, aux[k]);
        Advance(t, all, s, n, Op(OP_AUX) + SaveString(z, aux[k].0) + SaveString(z, aux[k].1),
                SaveAux(z, aux[k + 1..]), At(), m);
        if m == -1 { return -1; }
        n, k := n + m, k + 1;
      }
      Finish(t, all, At(), n);
    }

    /** rdbSaveRio, whose checksum covers what was written before it.  When it reports failure, what
        the stream holds is a proper beginning of the file. */
    method WriteFile(e: Env, f: File, crc: Option<Bytes -> uint64>) returns (ok: bool)
      requires FileFits(e, f) && buf == []
      modifies this
      ensures ok <==> |SaveFile(e, f, crc)| <= old(room)
      ensures ok ==> buf == SaveFile(e, f, crc) && room == old(room) - |buf|
      ensures !ok ==> buf == SaveFile(e, f, crc)[..old(room)]
    {
      hide SaveAux, SaveDbs, Magic, DbFits, AuxFits, LittleEndian, Left, Wrote;
      ghost var t, all := At(), SaveFile(e, f, crc);
      ghost var sum := all[|SaveBody(e, f)|..];
      ghost var r3 := Op(OP_EOF) + sum;
      ghost var r2 := SaveDbs(e, f.dbs) + r3;
      ghost var r1 := SaveAux(e.z, f.aux) + r2;
      assert all == SaveBody(e, f) + sum;
      assert all == Magic(RDB_VERSION) + r1;
      Begin(t, all);
      ghost var n, s := 0, t;
      var m := WriteRaw(Magic(RDB_VERSION));
      Advance(t, all, s, n, Magic(RDB_VERSION), r1, At(), m);
      if m == -1 { WroteMeans(t, At(), all, -1); return false; }
      n, s := n + m, At();
      m := WriteAux(e.z, f.aux);
      Advance(t, all, s, n, SaveAux(e.z, f.aux), r2, At(), m);
      if m == -1 { WroteMeans(t, At(), all, -1); return false; }
      n, s := n + m, At();
      ok := WriteDbs(e, f.dbs);
      Advance(t, all, s, n, SaveDbs(e, f.dbs), r3, At(), if ok then |SaveDbs(e, f.dbs)| else -1);
      if !ok { WroteMeans(t, At(), all, -1); return; }
      n, s := n + |SaveDbs(e, f.dbs)|, At();
      m := WriteRaw([OP_EOF]);
      Advance(t, all, s, n, [OP_EOF], sum, At(), m);
      if m == -1 { WroteMeans(t, At(), all, -1); return false; }
      n, s := n + m, At();
      BeforeSum(t, all, SaveBody(e, f), sum, s, n);
      m := WriteRaw(LittleEndian(if crc.Some? then crc.value(buf) else 0, 8));
      assert sum + [] == sum;
      Advance(t, all, s, n, sum, [], At(), m);
      if m == -1 { WroteMeans(t, At(), all, -1); return false; }
      n := n + m;
      Finish(t, all, At(), n);
      WroteMeans(t, At(), all, n);
      return true;
    }
  }
}
