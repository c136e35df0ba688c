/** In which form things are saved: the shortest length, integers as integers, and how many keys a
    database announces. */
module RdbForms {
  import opened Wrappers
  import opened RdbBytes
  import opened RdbStrings
  import opened RdbObjects
  import opened RdbFile

  lemma BytesOfWide(i: In, k: nat)
    requires k == 4 || k == 8
    ensures LoadWide(i, k).0.Some? ==> |i.rest| - |LoadWide(i, k).1.rest| == k
    ensures k == 4 && LoadWide(i, k).0.Some? ==> LoadWide(i, k).0.value.1 < U32
  {
    var s := Read(i, k).0;
    if s.Some? {
      Powers();
      BigEndianBound(s.value);
    }
  }

  /** No other bytes that are read as the same length are fewer. */
  lemma LenIsShortest(n: uint64, b: Bytes)
    requires LoadLenByRef(In(b, false)) == (Some((false, n)), In([], false))
    ensures |SaveLen(n)| <= |b|
  {
    var i1 := Read(In(b, false), 1).1;
    BytesOfWide(i1, 4);
    BytesOfWide(i1, 8);
    hide LoadWide, BigEndian;
  }

  /** A 32-bit integer in decimal. */
  ghost predicate IsInt32(s: Bytes, v: int) {
    -0x8000_0000 <= v < 0x8000_0000 && Decimal(v) == s
  }

  lemma IntegerFormIs(s: Bytes)
    ensures IntegerForm(s) != [] <==> exists v :: IsInt32(s, v)
    ensures forall v :: IsInt32(s, v) ==>
      IntegerForm(s) == EncodeInteger(v)
      && |EncodeInteger(v)| == if -0x80 <= v < 0x80 then 2 else if -0x8000 <= v < 0x8000 then 3 else 5
  {
    hide Decimal, SignedNumber, LittleEndian;
    forall v | IsInt32(s, v)
      ensures |s| <= 11 && ParseDecimal(s) == Some(v)
      ensures |EncodeInteger(v)| == if -0x80 <= v < 0x80 then 2 else if -0x8000 <= v < 0x8000 then 3 else 5
    {
      Int32Short(v);
      ParseInverts(v);
    }
    if IntegerForm(s) != [] {
      var v := ParseDecimal(s).value;
      assert IsInt32(s, v);
    }
  }

  lemma Int32Short(v: int)
    requires -0x8000_0000 <= v < 0x8000_0000
    ensures |Decimal(v)| <= 11
  {
    assert Pow10(5) == 10_0000;
    assert Pow10(10) == 10_0000 * 10_0000;
    DigitsShort(if v < 0 then -v else v, 10);
  }

  /** A string that is a 32-bit integer in decimal takes two, three or five bytes; any other is
      compressed if that is switched on, it has more than twenty bytes and it becomes at least four
      bytes shorter; the rest are written as they are. */
  lemma StringForm(c: Codec, s: Bytes)
    requires |s| < U64 && LzfInverts(c.lzf)
    ensures
      var r := SaveString(c, s);
      var packed := if |s| > 20 then c.lzf.compress(s, |s| - 4) else [];
      && (forall v :: IsInt32(s, v) ==> |r| == if -0x80 <= v < 0x80 then 2 else if -0x8000 <= v < 0x8000 then 3 else 5)
      && ((forall v :: !IsInt32(s, v)) ==>
            if c.compression && packed != [] then |packed| <= |s| - 4 && r == SaveLzfBlob(packed, |s|)
            else r == SaveLen(|s|) + s)
  {
    IntegerFormIs(s);
    hide IntegerForm, EncodeInteger, SaveLen, SaveLzfBlob, IsInt32;
    BlobNotEmpty(c, s);
  }

  lemma BlobNotEmpty(c: Codec, s: Bytes)
    requires |s| < U64 && LzfInverts(c.lzf)
    ensures LzfForm(c, s) != [] <==> c.compression && |s| > 20 && c.lzf.compress(s, |s| - 4) != []
    ensures LzfForm(c, s) != [] ==> LzfForm(c, s) == SaveLzfBlob(c.lzf.compress(s, |s| - 4), |s|)
  {
  }

  lemma {:induction false} ExpiresLast(its: seq<Item>, it: Item)
    ensures Expires(its + [it]) == Expires(its) + (if it.expire != -1 then 1 else 0)
    decreases |its|
  {
    if its == [] {
      assert its + [it] == [it];
    } else {
      assert (its + [it])[1..] == its[1..] + [it];
      ExpiresLast(its[1..], it);
    }
  }

  ghost function Expiring(its: seq<Item>): set<int> {
    set k | 0 <= k < |its| && its[k].expire != -1
  }

  lemma {:induction false} ExpiresCounts(its: seq<Item>)
    ensures Expires(its) == |Expiring(its)|
    decreases |its|
  {
    if its == [] {
      assert Expiring([]) == {};
    } else {
      var k := |its| - 1;
      ExpiresCounts(its[..k]);
      assert its == its[..k] + [its[k]];
      ExpiresLast(its[..k], its[k]);
      assert Expiring(its) == Expiring(its[..k]) + (if its[k].expire != -1 then {k} else {});
    }
  }

  /** A database that has keys starts with its number, the number of its keys and the number of those
      that expire. */
  lemma DbSaysItsSize(e: Env, d: Database)
    requires DbFits(e, d) && d.items != []
    ensures |Expiring(d.items)| <= |d.items|
    ensures [OP_SELECTDB] + SaveLen(d.id) + [OP_RESIZEDB] + SaveLen(|d.items|) + SaveLen(|Expiring(d.items)|)
      <= SaveDb(e, d)
  {
    ExpiresCounts(d.items);
    hide SaveLen, SaveItems, Expires, Expiring, ItemFits;
    var a, b, c := SaveLen(d.id), SaveLen(|d.items|), SaveLen(Expires(d.items));
    assert SaveDb(e, d) == [OP_SELECTDB] + a + [OP_RESIZEDB] + b + c + SaveItems(e, d.items);
  }

  /** An expire time in seconds, as old files have it, is taken as milliseconds. */
  lemma SecondsLoop(c: Config, t: int, st: State, rest: Bytes)
    requires -0x8000_0000 <= t < 0x8000_0000
    ensures Loop(c, In([OP_EXPIRETIME] + (LittleEndian(Unsigned(t, 4), 4) + rest), false), st)
      == Loop(c, In(rest, false), st.(attrs := st.attrs.(expire := 1000 * t)))
  {
    hide LoadLen, Loop, LoadTime, LoadString, LoadRecord;
    var s := LittleEndian(Unsigned(t, 4), 4);
    Powers();
    hide Pow256;
    SignedInverts(t, 4);
    ReadOp(OP_EXPIRETIME, s + rest);
    ReadBack(s, rest);
    LoopStep(c, In([OP_EXPIRETIME] + (s + rest), false), st);
  }

  /** An idle time that fits a long long stays what it is; a larger one wraps. */
  lemma IdleIsLongLong(n: uint64)
    ensures n < 0x8000_0000_0000_0000 ==> AsLongLong(n) == n
    ensures (n as int - AsLongLong(n) as int) % U64 == 0
  {
  }

  /** A hash is saved with TTLs exactly if one of its fields expires. */
  lemma HashForm(e: Env, fs: seq<Field>)
    requires Fits(e, VHash(fs))
    ensures TypeOf(VHash(fs)) == (if exists f :: f in fs && f.expire.Some? then 24 else 4)
    ensures (forall f :: f in fs ==> f.expire.None?) ==>
      SaveObject(e, VHash(fs)) == SaveLen(|fs|) + SaveFields(e.z, fs, false, EXPIRE_INVALID)
  {
    hide SaveLen, SaveFields;
    if HasExpire(fs) {
      var i :| 0 <= i < |fs| && fs[i].expire.Some?;
      assert fs[i] in fs;
    }
    assert [] + SaveLen(|fs|) == SaveLen(|fs|);
  }
}
