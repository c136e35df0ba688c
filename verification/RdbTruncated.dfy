/** A save that is interrupted never loads: no proper beginning of a saved file is accepted.  Every
    parser that does not run out of input does the same whatever follows, so a beginning that was
    accepted would leave the rest of the file over, and a saved file leaves nothing. */
module RdbTruncated {
  import opened Wrappers
  import opened RdbBytes
  import opened RdbStrings
  import opened RdbStream
  import opened RdbObjects
  import opened RdbFile
  import opened RdbTrace

  /** The same stream with more behind it. */
  function Ext(i: In, x: Bytes): In {
    In(i.rest + x, i.bad)
  }

  /** What a parser gave on the shorter input, unless it ran out, it gives on the longer one, and
      what is over is longer by as much. */
  ghost predicate Same<T>(i: In, r: (T, In), q: (T, In), x: Bytes) {
    !r.1.bad ==> !i.bad && q == (r.0, Ext(r.1, x))
  }

  lemma ReadExt(i: In, n: nat, x: Bytes)
    ensures Same(i, Read(i, n), Read(Ext(i, x), n), x)
  {
    if !i.bad && |i.rest| >= n {
      assert (i.rest + x)[..n] == i.rest[..n] && (i.rest + x)[n..] == i.rest[n..] + x;
    }
  }

  lemma LenByRefExt(i: In, x: Bytes)
    ensures Same(i, LoadLenByRef(i), LoadLenByRef(Ext(i, x)), x)
  {
    hide Read, FromBigEndian;
    ReadExt(i, 1, x);
    var i1 := Read(i, 1).1;
    ReadExt(i1, 1, x);
    ReadExt(i1, 4, x);
    ReadExt(i1, 8, x);
  }

  lemma LenExt(i: In, x: Bytes)
    ensures Same(i, LoadLen(i), LoadLen(Ext(i, x)), x)
    ensures LoadLen(i).0 != LENERR ==> !LoadLen(i).1.bad
  {
    hide LoadLenByRef;
    LenByRefExt(i, x);
  }

  lemma TimeExt(i: In, x: Bytes)
    ensures Same(i, LoadTime(i), LoadTime(Ext(i, x)), x)
  {
    hide Read, FromLittleEndian, Signed;
    ReadExt(i, 8, x);
  }

  lemma IntegerExt(i: In, enc: nat, x: Bytes)
    ensures Same(i, LoadInteger(i, enc), LoadInteger(Ext(i, x), enc), x)
  {
    hide Read, FromLittleEndian, Signed, Decimal;
    ReadExt(i, 1, x);
    ReadExt(i, 2, x);
    ReadExt(i, 4, x);
  }

  lemma LzfExt(i: In, z: Lzf, x: Bytes)
    ensures Same(i, LoadLzf(i, z), LoadLzf(Ext(i, x), z), x)
  {
    hide Read, LoadLen;
    LenExt(i, x);
    var (clen, i1) := LoadLen(i);
    LenExt(i1, x);
    var i2 := LoadLen(i1).1;
    ReadExt(i2, clen, x);
  }

  lemma StringExt(z: Codec, i: In, x: Bytes)
    ensures Same(i, LoadString(z, i), LoadString(z, Ext(i, x)), x)
  {
    hide Read, LoadLenByRef, LoadInteger, LoadLzf;
    LenByRefExt(i, x);
    var (l, i1) := LoadLenByRef(i);
    if l.Some? {
      IntegerExt(i1, l.value.1, x);
      LzfExt(i1, z.lzf, x);
      ReadExt(i1, l.value.1, x);
    }
  }

  // ------------------------------------------------------------------ collections

  /** Same, for a parser whose success means that it did not run out. */
  ghost predicate SameSome<T>(i: In, r: (Option<T>, In), q: (Option<T>, In), x: Bytes) {
    Same(i, r, q, x) && (r.0.Some? && !i.bad ==> !r.1.bad)
  }

  lemma {:induction false} NodesExt(e: Env, i: In, n: nat, acc: seq<(nat, Bytes)>, x: Bytes)
    ensures SameSome(i, LoadNodes(e, i, n, acc), LoadNodes(e, Ext(i, x), n, acc), x)
    decreases n
  {
    hide LoadLen, LoadString;
    if n > 0 {
      LenExt(i, x);
      var (container, i1) := LoadLen(i);
      StringExt(e.z, i1, x);
      var (data, i2) := LoadString(e.z, i1);
      NodesExt(e, i2, n - 1, acc, x);
      if data.Some? { NodesExt(e, i2, n - 1, acc + [(container, data.value)], x); }
    }
  }

  lemma {:induction false} MembersExt(z: Codec, i: In, n: nat, acc: set<Bytes>, x: Bytes)
    ensures SameSome(i, LoadMembers(z, i, n, acc), LoadMembers(z, Ext(i, x), n, acc), x)
    decreases n
  {
    hide LoadString;
    if n > 0 {
      StringExt(z, i, x);
      var (m, i1) := LoadString(z, i);
      if m.Some? { MembersExt(z, i1, n - 1, acc + {m.value}, x); }
    }
  }

  lemma {:induction false} ElemsExt(z: Codec, i: In, n: nat, acc: map<Bytes, nat>, x: Bytes)
    ensures SameSome(i, LoadElems(z, i, n, acc), LoadElems(z, Ext(i, x), n, acc), x)
    decreases n
  {
    hide LoadString, Read, FromLittleEndian;
    if n > 0 {
      StringExt(z, i, x);
      var (m, i1) := LoadString(z, i);
      ReadExt(i1, 8, x);
      var (s, i2) := Read(i1, 8);
      if m.Some? && s.Some? { ElemsExt(z, i2, n - 1, acc[m.value := FromLittleEndian(s.value)], x); }
    }
  }

  lemma {:induction false} FieldsExt(z: Codec, i: In, n: nat, meta: bool, min: uint64,
                                     acc: map<Bytes, (Bytes, Option<nat>)>, x: Bytes)
    ensures SameSome(i, LoadFields(z, i, n, meta, min, acc), LoadFields(z, Ext(i, x), n, meta, min, acc), x)
    decreases n
  {
    hide LoadString, LoadLenByRef;
    if n > 0 {
      LenByRefExt(i, x);
      var (ttl, i1) := if meta then LoadLenByRef(i) else (Some((false, 0)), i);
      StringExt(z, i1, x);
      var (name, i2) := LoadString(z, i1);
      StringExt(z, i2, x);
      var (value, i3) := LoadString(z, i2);
      if ttl.Some? && name.Some? && value.Some? {
        var at := ExpireAt(ttl.value.1, min);
        FieldsExt(z, i3, n - 1, meta, min, acc[name.value := (value.value, if at == 0 then None else Some(at))], x);
      }
    }
  }

  lemma {:induction false} PacksExt(e: Env, i: In, n: nat, acc: map<Bytes, Bytes>, x: Bytes)
    ensures SameSome(i, LoadPacks(e, i, n, acc), LoadPacks(e, Ext(i, x), n, acc), x)
    decreases n
  {
    hide LoadString;
    if n > 0 {
      StringExt(e.z, i, x);
      var (key, i1) := LoadString(e.z, i);
      StringExt(e.z, i1, x);
      var (lp, i2) := LoadString(e.z, i1);
      if key.Some? && lp.Some? { PacksExt(e, i2, n - 1, acc[key.value := lp.value], x); }
    }
  }

  lemma {:induction false} HeadsExt(i: In, n: nat, acc: seq<uint64>, x: Bytes)
    ensures Same(i, LoadHeads(i, n, acc), LoadHeads(Ext(i, x), n, acc), x)
    decreases n
  {
    hide LoadLen;
    if n > 0 {
      LenExt(i, x);
      var (h, i1) := LoadLen(i);
      HeadsExt(i1, n - 1, acc + [h], x);
    }
  }

  lemma {:induction false} EntriesExt(i: In, n: nat, l: Loaded, x: Bytes)
    ensures SameSome(i, LoadEntries(i, n, l), LoadEntries(Ext(i, x), n, l), x)
    decreases n
  {
    hide Read, LoadTime, LoadLen, AddPending;
    if n > 0 {
      ReadExt(i, ID_SIZE, x);
      var (id, i1) := Read(i, ID_SIZE);
      TimeExt(i1, x);
      var (time, i2) := LoadTime(i1);
      LenExt(i2, x);
      var (count, i3) := LoadLen(i2);
      if id.Some? { EntriesExt(i3, n - 1, AddPending(l, id.value, time, count), x); }
    }
  }

  lemma {:induction false} OwnedExt(i: In, n: nat, c: Bytes, l: Loaded, x: Bytes)
    requires c in l.consumers
    ensures SameSome(i, LoadOwned(i, n, c, l), LoadOwned(Ext(i, x), n, c, l), x)
    decreases n
  {
    hide Read;
    if n > 0 {
      ReadExt(i, ID_SIZE, x);
      var (id, i1) := Read(i, ID_SIZE);
      if id.Some? && id.value in l.pel && l.pel[id.value] in l.nacks {
        OwnedExt(i1, n - 1, c, Assign(l, c, id.value), x);
      }
    }
  }

  lemma ConsumerExt(z: Codec, i: In, l: Loaded, x: Bytes)
    ensures SameSome(i, LoadConsumer(z, i, l), LoadConsumer(z, Ext(i, x), l), x)
  {
    hide LoadString, LoadTime, LoadLen, LoadOwned;
    StringExt(z, i, x);
    var (name, i1) := LoadString(z, i);
    TimeExt(i1, x);
    var (seen, i2) := LoadTime(i1);
    TimeExt(i2, x);
    var (active, i3) := LoadTime(i2);
    LenExt(i3, x);
    var (n, i4) := LoadLen(i3);
    if name.Some? {
      OwnedExt(i4, n, name.value, l.(consumers := l.consumers[name.value := LoadedConsumer(seen, active, map[])]), x);
    }
  }

  lemma {:induction false} ConsumersExt(z: Codec, i: In, n: nat, l: Loaded, x: Bytes)
    ensures SameSome(i, LoadConsumers(z, i, n, l), LoadConsumers(z, Ext(i, x), n, l), x)
    decreases n
  {
    hide LoadConsumer;
    if n > 0 {
      ConsumerExt(z, i, l, x);
      var (l1, i1) := LoadConsumer(z, i, l);
      if l1.Some? { ConsumersExt(z, i1, n - 1, l1.value, x); }
    }
  }

  lemma GroupExt(z: Codec, i: In, deep: bool, groups: map<Bytes, Loaded>, x: Bytes)
    ensures SameSome(i, LoadGroup(z, i, deep, groups), LoadGroup(z, Ext(i, x), deep, groups), x)
  {
    hide LoadString, LoadLen, LoadEntries, LoadConsumers, AllOwned;
    StringExt(z, i, x);
    var (name, i1) := LoadString(z, i);
    LenExt(i1, x);
    var (ms, i2) := LoadLen(i1);
    LenExt(i2, x);
    var (sq, i3) := LoadLen(i2);
    LenExt(i3, x);
    var (entriesRead, i4) := LoadLen(i3);
    LenExt(i4, x);
    var (n, i5) := LoadLen(i4);
    var l0 := Loaded(ms, sq, entriesRead, map[], map[], map[], 0);
    EntriesExt(i5, n, l0, x);
    var (l, i6) := LoadEntries(i5, n, l0);
    LenExt(i6, x);
    var (m, i7) := LoadLen(i6);
    if l.Some? { ConsumersExt(z, i7, m, l.value, x); }
  }

  lemma {:induction false} GroupsExt(e: Env, i: In, n: nat, acc: map<Bytes, Loaded>, x: Bytes)
    ensures SameSome(i, LoadGroups(e, i, n, acc), LoadGroups(e, Ext(i, x), n, acc), x)
    decreases n
  {
    hide LoadGroup;
    if n > 0 {
      GroupExt(e.z, i, e.deep, acc, x);
      var (m, i1) := LoadGroup(e.z, i, e.deep, acc);
      if m.Some? { GroupsExt(e, i1, n - 1, m.value, x); }
    }
  }

  // ---------------------------------------------------------------------- objects

  ghost predicate SameResult(i: In, r: (Result, In), q: (Result, In), x: Bytes) {
    Same(i, r, q, x) && (!r.0.Fail? && !i.bad ==> !r.1.bad)
  }

  lemma StreamExt(e: Env, i: In, x: Bytes)
    ensures SameResult(i, LoadStream(e, i), LoadStream(e, Ext(i, x)), x)
  {
    hide LoadLen, LoadPacks, LoadHeads, LoadGroups;
    LenExt(i, x);
    var (n, i1) := LoadLen(i);
    PacksExt(e, i1, n, map[], x);
    var (packs, i2) := LoadPacks(e, i1, n, map[]);
    HeadsExt(i2, 8, [], x);
    var (heads, i3) := LoadHeads(i2, 8, []);
    LenExt(i3, x);
    var (m, i4) := LoadLen(i3);
    GroupsExt(e, i4, m, map[], x);
  }

  lemma HashExt(z: Codec, i: In, meta: bool, x: Bytes)
    ensures SameResult(i, LoadHash(z, i, meta), LoadHash(z, Ext(i, x), meta), x)
  {
    hide LoadTime, LoadLen, LoadFields;
    TimeExt(i, x);
    var (min, i1) := if meta then LoadTime(i) else (0, i);
    LenExt(i1, x);
    var (n, i2) := LoadLen(i1);
    if 0 <= min { FieldsExt(z, i2, n, meta, min, map[], x); }
  }

  lemma PackedExt(e: Env, kind: nat, i: In, x: Bytes)
    requires IsPacked(kind)
    ensures SameResult(i, LoadObject(e, kind, i), LoadObject(e, kind, Ext(i, x)), x)
  {
    hide LoadTime, LoadString;
    TimeExt(i, x);
    var (_, i1) := if kind == TYPE_HASH_LISTPACK_EX then LoadTime(i) else (0, i);
    StringExt(e.z, i1, x);
  }

  lemma CollectionExt(e: Env, kind: nat, i: In, x: Bytes)
    requires kind == TYPE_LIST_QUICKLIST_2 || kind == TYPE_SET || kind == TYPE_ZSET_2
    ensures SameResult(i, LoadObject(e, kind, i), LoadObject(e, kind, Ext(i, x)), x)
  {
    hide LoadLen, LoadString, LoadNodes, LoadMembers, LoadElems, LoadHash, LoadStream, LoadTime;
    LenExt(i, x);
    var (n, i1) := LoadLen(i);
    if kind == TYPE_LIST_QUICKLIST_2 {
      NodesExt(e, i1, n, [], x);
    } else if kind == TYPE_SET {
      MembersExt(e.z, i1, n, {}, x);
    } else {
      ElemsExt(e.z, i1, n, map[], x);
    }
  }

  lemma ObjectExt(e: Env, kind: nat, i: In, x: Bytes)
    ensures SameResult(i, LoadObject(e, kind, i), LoadObject(e, kind, Ext(i, x)), x)
  {
    if IsPacked(kind) {
      PackedExt(e, kind, i, x);
    } else if kind == TYPE_LIST_QUICKLIST_2 || kind == TYPE_SET || kind == TYPE_ZSET_2 {
      CollectionExt(e, kind, i, x);
    } else {
      hide LoadLen, LoadString, LoadNodes, LoadMembers, LoadElems, LoadHash, LoadStream, LoadTime;
      StringExt(e.z, i, x);
      HashExt(e.z, i, kind == TYPE_HASH_METADATA, x);
      StreamExt(e, i, x);
    }
  }

  // --------------------------------------------------------------------- the loop

  ghost predicate SameOutcome(r: Outcome, q: Outcome, x: Bytes) {
    match r
    case Error => true
    case Continue(st, i) => !i.bad && q == Continue(st, Ext(i, x))
    case Done(st, i) => !i.bad && q == Done(st, Ext(i, x))
  }

  lemma RecordExt(c: Config, kind: nat, i: In, st: State, x: Bytes)
    requires !i.bad
    ensures SameOutcome(LoadRecord(c, kind, i, st), LoadRecord(c, kind, Ext(i, x), st), x)
  {
    hide LoadString, LoadObject;
    StringExt(c.env.z, i, x);
    var (key, i1) := LoadString(c.env.z, i);
    ObjectExt(c.env, kind, i1, x);
  }

  lemma StepExt(c: Config, i: In, st: State, x: Bytes)
    requires !i.bad
    ensures SameOutcome(Step(c, i, st), Step(c, Ext(i, x), st), x)
  {
    hide Read, LoadLen, LoadString, LoadTime, LoadRecord, Seconds;
    ReadExt(i, 1, x);
    var (b, i1) := Read(i, 1);
    if b.Some? {
      var op := b.value[0];
      if op == OP_EXPIRETIME {
        ReadExt(i1, 4, x);
      } else if op == OP_FREQ {
        ReadExt(i1, 1, x);
      } else if op == OP_EXPIRETIME_MS {
        TimeExt(i1, x);
      } else if op == OP_AUX {
        StringExt(c.env.z, i1, x);
        StringExt(c.env.z, LoadString(c.env.z, i1).1, x);
      } else if op <= OP_SLOT_INFO && op != OP_SLOT_INFO {
        RecordExt(c, op, i1, st, x);
      } else {
        ThreeLensExt(i1, x);
      }
    }
  }

  lemma ThreeLensExt(i: In, x: Bytes)
    ensures
      var (a, i1) := LoadLen(i);
      var (b, i2) := LoadLen(i1);
      var (c, i3) := LoadLen(i2);
      && Same(i, (a, i1), LoadLen(Ext(i, x)), x) && Same(i1, (b, i2), LoadLen(Ext(i1, x)), x)
      && Same(i2, (c, i3), LoadLen(Ext(i2, x)), x)
      && (a != LENERR ==> !i1.bad) && (b != LENERR ==> !i2.bad) && (c != LENERR ==> !i3.bad)
  {
    hide LoadLen;
    LenExt(i, x);
    LenExt(LoadLen(i).1, x);
    LenExt(LoadLen(LoadLen(i).1).1, x);
  }

  /** A load that reaches the end reaches the same end whatever follows. */
  lemma {:induction false} LoopExt(c: Config, i: In, st: State, x: Bytes)
    requires !i.bad && Loop(c, i, st).Some?
    ensures
      var (st1, i1) := Loop(c, i, st).value;
      !i1.bad && Loop(c, Ext(i, x), st) == Some((st1, Ext(i1, x)))
    decreases |i.rest|
  {
    hide Step;
    StepExt(c, i, st, x);
    var r := Step(c, i, st);
    if r.Continue? { LoopExt(c, r.i, r.st, x); }
  }

  // ------------------------------------------------------- where a saved file ends

  /** Reading on from i is reading on from j, unless what lies between cannot be read. */
  ghost predicate LeadsTo(e: Env, i: In, j: In, readable: bool) {
    End(e, i) == if readable then End(e, j) else None
  }

  lemma EndStep(e: Env, i: In)
    requires !OpAt(e, i).0.Broken? && !OpAt(e, i).0.Finish?
    ensures LeadsTo(e, i, OpAt(e, i).1, true)
  {
  }

  /** Slot information can be read back unless one of its numbers is the one that rdbLoadLen returns
      for an error. */
  predicate SlotReadable(s: Option<(uint64, uint64, uint64)>) {
    s.Some? ==> s.value.0 != LENERR && s.value.1 != LENERR && s.value.2 != LENERR
  }

  predicate ItemsReadable(its: seq<Item>) {
    forall it :: it in its ==> SlotReadable(it.slot)
  }

  predicate DbsReadable(ds: seq<Database>) {
    forall d :: d in ds ==> ItemsReadable(d.items)
  }

  lemma SlotEnd(e: Env, s: Option<(uint64, uint64, uint64)>, rest: Bytes)
    ensures LeadsTo(e, In(SaveSlot(s) + rest, false), In(rest, false), SlotReadable(s))
  {
    hide SaveLen, LoadLen, LoadTime, LoadString, RecordAt;
    match s
    case None => assert SaveSlot(s) + rest == rest;
    case Some((a, b, n)) =>
      var t := SaveLen(a) + (SaveLen(b) + (SaveLen(n) + rest));
      assert SaveSlot(s) + rest == [OP_SLOT_INFO] + t;
      ReadOp(OP_SLOT_INFO, t);
      LenRoundTrip(a, SaveLen(b) + (SaveLen(n) + rest));
      LenRoundTrip(b, SaveLen(n) + rest);
      LenRoundTrip(n, rest);
      if SlotReadable(s) { EndStep(e, In([OP_SLOT_INFO] + t, false)); }
  }

  lemma ExpireEnd(e: Env, t: int64, rest: Bytes)
    ensures LeadsTo(e, In(SaveExpire(t) + rest, false), In(rest, false), true)
  {
    hide LoadLen, SaveTime, LoadTime, LoadString, RecordAt;
    if t == -1 {
      assert SaveExpire(t) + rest == rest;
    } else {
      assert SaveExpire(t) + rest == [OP_EXPIRETIME_MS] + (SaveTime(t) + rest);
      ReadOp(OP_EXPIRETIME_MS, SaveTime(t) + rest);
      TimeRoundTrip(t, rest);
      EndStep(e, In(SaveExpire(t) + rest, false));
    }
  }

  lemma UsageEnd(e: Env, u: Usage, rest: Bytes)
    requires u.Idle? ==> u.seconds < LENERR
    ensures LeadsTo(e, In(SaveUsage(u) + rest, false), In(rest, false), true)
  {
    hide SaveLen, LoadLen, LoadTime, LoadString, RecordAt;
    match u
    case NoUsage => assert SaveUsage(u) + rest == rest;
    case Idle(n) =>
      assert SaveUsage(u) + rest == [OP_IDLE] + (SaveLen(n) + rest);
      ReadOp(OP_IDLE, SaveLen(n) + rest);
      LenRoundTrip(n, rest);
      EndStep(e, In(SaveUsage(u) + rest, false));
    case Freq(f) =>
      assert SaveUsage(u) + rest == [OP_FREQ] + ([f] + rest);
      ReadOp(OP_FREQ, [f] + rest);
      ReadOp(f, rest);
      EndStep(e, In(SaveUsage(u) + rest, false));
  }

  lemma RecordEnd(e: Env, it: Item, rest: Bytes)
    requires LzfInverts(e.z.lzf) && ItemFits(e, it)
    ensures LeadsTo(e, In(SaveRecord(e, it) + rest, false), In(rest, false), true)
  {
    hide LoadLen, LoadTime, SaveString, LoadString, SaveObject, LoadObject, Fits, ObjectOf;
    var kind := TypeOf(it.value);
    var body := SaveObject(e, it.value) + rest;
    assert SaveRecord(e, it) + rest == [kind] + (SaveString(e.z, it.key) + body);
    hide TypeOf;
    ReadOp(kind, SaveString(e.z, it.key) + body);
    StringRoundTrip(e.z, it.key, body);
    ObjectRoundTrip(e, it.value, rest);
    EndStep(e, In(SaveRecord(e, it) + rest, false));
  }

  lemma ItemEnd(e: Env, it: Item, rest: Bytes)
    requires LzfInverts(e.z.lzf) && ItemFits(e, it)
    ensures LeadsTo(e, In(SaveItem(e, it) + rest, false), In(rest, false), SlotReadable(it.slot))
  {
    hide End, SaveRecord, SaveSlot, SaveExpire, SaveUsage, Fits;
    var t3 := SaveRecord(e, it) + rest;
    var t2 := SaveUsage(it.usage) + t3;
    var t1 := SaveExpire(it.expire) + t2;
    assert SaveItem(e, it) + rest == SaveSlot(it.slot) + t1;
    SlotEnd(e, it.slot, t1);
    ExpireEnd(e, it.expire, t2);
    UsageEnd(e, it.usage, t3);
    RecordEnd(e, it, rest);
  }

  lemma {:induction false} ItemsEnd(e: Env, its: seq<Item>, rest: Bytes)
    requires LzfInverts(e.z.lzf) && forall it :: it in its ==> ItemFits(e, it)
    ensures LeadsTo(e, In(SaveItems(e, its) + rest, false), In(rest, false), ItemsReadable(its))
    decreases |its|
  {
    hide End, SaveItem, Fits;
    if its == [] {
      assert SaveItems(e, its) + rest == rest;
    } else {
      assert ItemFits(e, its[0]);
      var more := SaveItems(e, its[1..]) + rest;
      assert SaveItems(e, its) + rest == SaveItem(e, its[0]) + more;
      ItemEnd(e, its[0], more);
      ItemsEnd(e, its[1..], rest);
    }
  }

  lemma DbEnd(e: Env, d: Database, rest: Bytes)
    requires LzfInverts(e.z.lzf) && DbFits(e, d)
    ensures LeadsTo(e, In(SaveDb(e, d) + rest, false), In(rest, false), ItemsReadable(d.items))
  {
    hide SaveLen, LoadLen, LoadTime, LoadString, RecordAt, SaveItems, ItemFits;
    if d.items == [] {
      assert SaveDb(e, d) + rest == rest;
    } else {
      var t2 := SaveItems(e, d.items) + rest;
      var n, m := |d.items|, Expires(d.items);
      var t1 := [OP_RESIZEDB] + (SaveLen(n) + (SaveLen(m) + t2));
      assert SaveDb(e, d) + rest == [OP_SELECTDB] + (SaveLen(d.id) + t1);
      ReadOp(OP_SELECTDB, SaveLen(d.id) + t1);
      LenRoundTrip(d.id, t1);
      EndStep(e, In(SaveDb(e, d) + rest, false));
      ReadOp(OP_RESIZEDB, SaveLen(n) + (SaveLen(m) + t2));
      LenRoundTrip(n, SaveLen(m) + t2);
      LenRoundTrip(m, t2);
      EndStep(e, In(t1, false));
      ItemsEnd(e, d.items, rest);
    }
  }

  lemma {:induction false} DbsEnd(e: Env, ds: seq<Database>, rest: Bytes)
    requires LzfInverts(e.z.lzf) && forall d :: d in ds ==> DbFits(e, d)
    ensures LeadsTo(e, In(SaveDbs(e, ds) + rest, false), In(rest, false), DbsReadable(ds))
    decreases |ds|
  {
    hide End, SaveDb, DbFits;
    if ds == [] {
      assert SaveDbs(e, ds) + rest == rest;
    } else {
      var more := SaveDbs(e, ds[1..]) + rest;
      assert SaveDbs(e, ds) + rest == SaveDb(e, ds[0]) + more;
      DbEnd(e, ds[0], more);
      DbsEnd(e, ds[1..], rest);
    }
  }

  lemma {:induction false} AuxEnd(e: Env, aux: seq<(Bytes, Bytes)>, rest: Bytes)
    requires LzfInverts(e.z.lzf) && forall a :: a in aux ==> AuxFits(a)
    ensures LeadsTo(e, In(SaveAux(e.z, aux) + rest, false), In(rest, false), true)
    decreases |aux|
  {
    hide SaveString, LoadString, LoadLen, LoadTime, RecordAt;
    if aux == [] {
      assert SaveAux(e.z, aux) + rest == rest;
    } else {
      assert AuxFits(aux[0]);
      var more := SaveAux(e.z, aux[1..]) + rest;
      var t := SaveString(e.z, aux[0].0) + (SaveString(e.z, aux[0].1) + more);
      assert SaveAux(e.z, aux) + rest == [OP_AUX] + t;
      ReadOp(OP_AUX, t);
      StringRoundTrip(e.z, aux[0].0, SaveString(e.z, aux[0].1) + more);
      StringRoundTrip(e.z, aux[0].1, more);
      EndStep(e, In(SaveAux(e.z, aux) + rest, false));
      AuxEnd(e, aux[1..], rest);
    }
  }

  /** The end of a saved file is where its checksum starts, if all slot information can be read back;
      otherwise it has none. */
  lemma FileEnds(e: Env, f: File, sum: Bytes)
    requires LzfInverts(e.z.lzf) && FileFits(e, f)
    ensures
      var i := In(SaveAux(e.z, f.aux) + (SaveDbs(e, f.dbs) + ([OP_EOF] + sum)), false);
      End(e, i) == if DbsReadable(f.dbs) then Some(In(sum, false)) else None
  {
    hide SaveAux, SaveDbs, DbFits, AuxFits, LoadLen, LoadTime, LoadString, RecordAt;
    AuxEnd(e, f.aux, SaveDbs(e, f.dbs) + ([OP_EOF] + sum));
    DbsEnd(e, f.dbs, [OP_EOF] + sum);
    ReadOp(OP_EOF, sum);
  }

  // ---------------------------------------------------------------------- the file

  /** A load of what has been cut short leaves less than the checksum. */
  lemma TooShort(c: Config, f: File, sum: Bytes, i: In, x: Bytes)
    requires LzfInverts(c.env.z.lzf) && FileFits(c.env, f) && !i.bad && x != []
    requires Ext(i, x) == In(SaveAux(c.env.z, f.aux) + (SaveDbs(c.env, f.dbs) + ([OP_EOF] + sum)), false)
    ensures Loop(c, i, START).Some? ==> |Loop(c, i, START).value.1.rest| < |sum|
  {
    hide SaveAux, SaveDbs, Loop, End, DbFits, AuxFits, DbsReadable;
    if Loop(c, i, START).Some? {
      LoopExt(c, i, START, x);
      EndFollows(c, Ext(i, x), START);
      FileEnds(c.env, f, sum);
    }
  }

  /** No proper beginning of a saved file loads, whatever keys the file holds, with or without
      checksums: an interrupted save is never taken for a whole one. */
  lemma TruncatedNeverLoads(c: Config, f: File, crc: Option<Bytes -> uint64>, k: nat)
    requires LzfInverts(c.env.z.lzf) && FileFits(c.env, f)
    requires k < |SaveFile(c.env, f, crc)|
    ensures LoadFile(c, SaveFile(c.env, f, crc)[..k]) == None
  {
    hide Read, SaveAux, SaveDbs, Loop, End, Magic, Version, DbFits, AuxFits, SaveBody, LittleEndian, FromLittleEndian,
      DbsReadable;
    var body := SaveBody(c.env, f);
    var sum := LittleEndian(if crc.Some? then crc.value(body) else 0, 8);
    var file := body + sum;
    var t := SaveAux(c.env.z, f.aux) + (SaveDbs(c.env, f.dbs) + ([OP_EOF] + sum));
    BodySplits(c.env, f, sum);
    if k >= 9 {
      MagicReads(file[9..k]);
      assert file[..k] == Magic(RDB_VERSION) + file[9..k] && t == file[9..];
      var i, x := In(file[9..k], false), file[k..];
      assert Ext(i, x) == In(t, false);
      TooShort(c, f, sum, i, x);
    }
  }
}
