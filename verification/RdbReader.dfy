/** The loading side as it runs: each function takes bytes off the stream and builds its value step
    by step. */
module RdbReader {
  import opened Wrappers
  import opened RdbBytes
  import opened RdbStrings
  import opened RdbStream
  import opened RdbObjects
  import opened RdbFile

  class Loader {
    var input: In
    var dbs: map<nat, map<Bytes, Entry>>

    constructor (file: Bytes, dbs: map<nat, map<Bytes, Entry>>)
      ensures input == In(file, false) && this.dbs == dbs
    {
      input, this.dbs := In(file, false), dbs;
    }

    /** rioRead. */
    method ReadRaw(n: nat) returns (s: Option<Bytes>)
      modifies this`input
      ensures (s, input) == Read(old(input), n)
    {
      if input.bad || |input.rest| < n {
        input := input.(bad := true);
        return None;
      }
      s, input := Some(input.rest[..n]), input.(rest := input.rest[n..]);
    }

    /** rdbLoadLenByRef. */
    method ReadLenByRef() returns (l: Option<(bool, uint64)>)
      modifies this`input
      ensures (l, input) == LoadLenByRef(old(input))
    {
      hide FromBigEndian;
      var b := ReadRaw(1);
      if b.None? { return None; }
      var b0 := b.value[0];
      var kind := b0 / 64;
      if kind == RDB_ENCVAL {
        l := Some((true, b0 % 64));
      } else if kind == RDB_6BITLEN {
        l := Some((false, b0 % 64));
      } else if kind == RDB_14BITLEN {
        var b1 := ReadRaw(1);
        if b1.None? { return None; }
        var len: uint64 := (b0 as int) % 64 * 256 + (b1.value[0] as int);
        l := Some((false, len));
      } else if b0 == RDB_32BITLEN || b0 == RDB_64BITLEN {
        var k := if b0 == RDB_32BITLEN then 4 else 8;
        var s := ReadRaw(k);
        if s.None? { return None; }
        Powers();
        BigEndianBound(s.value);
        l := Some((false, FromBigEndian(s.value)));
      } else {
        l := None;
      }
    }

    /** rdbLoadLen. */
    method ReadLen() returns (len: uint64)
      modifies this`input
      ensures (len, input) == LoadLen(old(input))
    {
      hide LoadLenByRef;
      var l := ReadLenByRef();
      len := if l.Some? then l.value.1 else LENERR;
    }

    /** rdbLoadMillisecondTime. */
    method ReadTime() returns (t: int64)
      modifies this`input
      ensures (t, input) == LoadTime(old(input))
    {
      var s := ReadRaw(8);
      if s.None? { return LLONG_MAX; }
      LittleEndianBound(s.value);
      Powers();
      t := Signed(FromLittleEndian(s.value), 8);
    }

    /** rdbLoadIntegerObject. */
    method ReadInteger(enc: nat) returns (s: Option<Bytes>)
      modifies this`input
      ensures (s, input) == LoadInteger(old(input), enc)
    {
      hide Decimal, FromLittleEndian;
      var k;
      if enc == RDB_ENC_INT8 {
        k := 1;
      } else if enc == RDB_ENC_INT16 {
        k := 2;
      } else if enc == RDB_ENC_INT32 {
        k := 4;
      } else {
        return None;
      }
      var bytes := ReadRaw(k);
      if bytes.None? { return None; }
      s := Some(Decimal(Signed(FromLittleEndian(bytes.value), k)));
    }

    /** rdbLoadLzfStringObject. */
    method ReadLzf(z: Lzf) returns (s: Option<Bytes>)
      modifies this`input
      ensures (s, input) == LoadLzf(old(input), z)
    {
      hide LoadLen;
      var clen := ReadLen();
      if clen == LENERR { return None; }
      var len := ReadLen();
      if len == LENERR { return None; }
      var c := ReadRaw(clen);
      if c.None? { return None; }
      s := z.decompress(c.value, len);
      if s.None? || |s.value| != len { return None; }
    }

    /** rdbGenericLoadStringObject. */
    method ReadString(z: Codec) returns (s: Option<Bytes>)
      modifies this`input
      ensures (s, input) == LoadString(z, old(input))
    {
      hide LoadLenByRef, LoadInteger, LoadLzf, Read;
      var l := ReadLenByRef();
      if l.None? || l.value.1 == LENERR { return None; }
      var (encoded, len) := l.value;
      if encoded {
        if len <= RDB_ENC_INT32 {
          s := ReadInteger(len);
        } else if len == RDB_ENC_LZF {
          s := ReadLzf(z.lzf);
        } else {
          s := None;
        }
      } else if len == 0 {
        s := Some([]);
      } else {
        s := ReadRaw(len);
      }
    }

    // ---------------------------------------------------------------- collections

    method ReadNodes(e: Env, n: nat) returns (acc: Option<seq<(nat, Bytes)>>)
      modifies this`input
      ensures (acc, input) == LoadNodes(e, old(input), n, [])
    {
      hide LoadLen, LoadString;
      var left := n;
      var ns: seq<(nat, Bytes)> := [];
      while left > 0
        invariant LoadNodes(e, old(input), n, []) == LoadNodes(e, input, left, ns)
      {
        var container := ReadLen();
        if container != CONTAINER_PLAIN && container != CONTAINER_PACKED { return None; }
        var data := ReadString(e.z);
        if data.None? || data.value == [] { return None; }
        if container == CONTAINER_PACKED {
          if !e.packOk(TYPE_LIST_QUICKLIST_2, data.value) { return None; }
          if e.packCount(TYPE_LIST_QUICKLIST_2, data.value) > 0 {
            ns := ns + [(container, data.value)];
          }
        } else {
          ns := ns + [(container, data.value)];
        }
        left := left - 1;
      }
      acc := Some(ns);
    }

    method ReadMembers(z: Codec, n: nat) returns (acc: Option<set<Bytes>>)
      modifies this`input
      ensures (acc, input) == LoadMembers(z, old(input), n, {})
    {
      hide LoadString;
      var left := n;
      var ms: set<Bytes> := {};
      while left > 0
        invariant LoadMembers(z, old(input), n, {}) == LoadMembers(z, input, left, ms)
      {
        var m := ReadString(z);
        if m.None? || m.value in ms { return None; }
        ms := ms + {m.value};
        left := left - 1;
      }
      acc := Some(ms);
    }

    method ReadElems(z: Codec, n: nat) returns (acc: Option<map<Bytes, nat>>)
      modifies this`input
      ensures (acc, input) == LoadElems(z, old(input), n, map[])
    {
      hide LoadString, FromLittleEndian, Read;
      var left := n;
      var es: map<Bytes, nat> := map[];
      while left > 0
        invariant LoadElems(z, old(input), n, map[]) == LoadElems(z, input, left, es)
      {
        var m := ReadString(z);
        if m.None? { return None; }
        var s := ReadRaw(8);
        if s.None? { return None; }
        var score := FromLittleEndian(s.value);
        if IsNan(score) || m.value in es { return None; }
        es := es[m.value := score];
        left := left - 1;
      }
      acc := Some(es);
    }

    method ReadFields(z: Codec, n: nat, meta: bool, min: uint64) returns (acc: Option<map<Bytes, (Bytes, Option<nat>)>>)
      modifies this`input
      ensures (acc, input) == LoadFields(z, old(input), n, meta, min, map[])
    {
      hide LoadString, LoadLenByRef;
      var left := n;
      var fs: map<Bytes, (Bytes, Option<nat>)> := map[];
      while left > 0
        invariant LoadFields(z, old(input), n, meta, min, map[]) == LoadFields(z, input, left, meta, min, fs)
      {
        var ttl: Option<(bool, uint64)> := Some((false, 0));
        if meta {
          ttl := ReadLenByRef();
        }
        if ttl.None? { return None; }
        var at := ExpireAt(ttl.value.1, min);
        if at > EXPIRE_MAX { return None; }
        var name := ReadString(z);
        if name.None? { return None; }
        var value := ReadString(z);
        if value.None? || name.value in fs { return None; }
        fs := fs[name.value := (value.value, if at == 0 then None else Some(at))];
        left := left - 1;
      }
      acc := Some(fs);
    }

    method ReadHash(z: Codec, meta: bool) returns (r: Result)
      modifies this`input
      ensures (r, input) == LoadHash(z, old(input), meta)
    {
      hide LoadTime, LoadLen, LoadFields;
      var min: int64 := 0;
      if meta {
        min := ReadTime();
      }
      if input.bad || min < 0 || min > EXPIRE_INVALID { return Fail; }
      var n := ReadLen();
      if n == LENERR { return Fail; }
      if n == 0 { return EmptyKey; }
      var m := ReadFields(z, n, meta, min);
      r := if m.None? then Fail else Got(OHash(m.value));
    }

    // -------------------------------------------------------------------- streams

    method ReadPacks(e: Env, n: nat) returns (acc: Option<map<Bytes, Bytes>>)
      modifies this`input
      ensures (acc, input) == LoadPacks(e, old(input), n, map[])
    {
      hide LoadString;
      var left := n;
      var ps: map<Bytes, Bytes> := map[];
      while left > 0
        invariant LoadPacks(e, old(input), n, map[]) == LoadPacks(e, input, left, ps)
      {
        var key := ReadString(e.z);
        if key.None? || |key.value| != ID_SIZE { return None; }
        var lp := ReadString(e.z);
        if lp.None? || !e.packOk(TYPE_STREAM_LISTPACKS_3, lp.value) { return None; }
        if e.packCount(TYPE_STREAM_LISTPACKS_3, lp.value) == 0 || key.value in ps { return None; }
        ps := ps[key.value := lp.value];
        left := left - 1;
      }
      acc := Some(ps);
    }

    method ReadHeads(n: nat) returns (hs: seq<uint64>)
      modifies this`input
      ensures (hs, input) == LoadHeads(old(input), n, [])
    {
      hide LoadLen;
      var left := n;
      hs := [];
      while left > 0
        invariant LoadHeads(old(input), n, []) == LoadHeads(input, left, hs)
      {
        var h := ReadLen();
        hs := hs + [h];
        left := left - 1;
      }
    }

    /** The global pending list of a group; its NACKs have no owner yet. */
    method ReadEntries(n: nat, l0: Loaded) returns (r: Option<Loaded>)
      modifies this`input
      ensures (r, input) == LoadEntries(old(input), n, l0)
    {
      hide LoadTime, LoadLen, AddPending, Read;
      var left, l := n, l0;
      while left > 0
        invariant LoadEntries(old(input), n, l0) == LoadEntries(input, left, l)
      {
        var id := ReadRaw(ID_SIZE);
        if id.None? { return None; }
        var time := ReadTime();
        var count := ReadLen();
        if input.bad || id.value in l.pel { return None; }
        l := AddPending(l, id.value, time, count);
        left := left - 1;
      }
      r := Some(l);
    }

    /** The pending list of a consumer, whose entries are looked up in the group's. */
    method ReadOwned(n: nat, c: Bytes, l0: Loaded) returns (r: Option<Loaded>)
      requires c in l0.consumers
      modifies this`input
      ensures (r, input) == LoadOwned(old(input), n, c, l0)
    {
      hide Read;
      var left, l := n, l0;
      while left > 0
        invariant c in l.consumers && LoadOwned(old(input), n, c, l0) == LoadOwned(input, left, c, l)
      {
        var id := ReadRaw(ID_SIZE);
        if id.None? || id.value !in l.pel || l.pel[id.value] !in l.nacks { return None; }
        if id.value in l.consumers[c].pel { return None; }
        l := Assign(l, c, id.value);
        left := left - 1;
      }
      r := Some(l);
    }

    method ReadConsumers(z: Codec, n: nat, l0: Loaded) returns (r: Option<Loaded>)
      modifies this`input
      ensures (r, input) == LoadConsumers(z, old(input), n, l0)
    {
      hide LoadString, LoadTime, LoadLen, LoadOwned;
      var left, l := n, l0;
      while left > 0
        invariant LoadConsumers(z, old(input), n, l0) == LoadConsumers(z, input, left, l)
      {
        var name := ReadString(z);
        if name.None? || name.value in l.consumers { return None; }
        var seen := ReadTime();
        if input.bad { return None; }
        var active := ReadTime();
        if input.bad { return None; }
        var k := ReadLen();
        if k == LENERR { return None; }
        l := l.(consumers := l.consumers[name.value := LoadedConsumer(seen, active, map[])]);
        var l1 := ReadOwned(k, name.value, l);
        if l1.None? { return None; }
        l := l1.value;
        left := left - 1;
      }
      r := Some(l);
    }

    /** Deep validation looks at the entries one by one. */
    method CheckOwned(l: Loaded) returns (ok: bool)
      ensures ok == AllOwned(l)
    {
      var todo := l.pel.Keys;
      while todo != {}
        invariant todo <= l.pel.Keys
        invariant forall id :: id in l.pel && id !in todo ==> l.pel[id] in l.nacks && l.nacks[l.pel[id]].owner.Some?
        decreases |todo|
      {
        var id :| id in todo;
        if l.pel[id] !in l.nacks || l.nacks[l.pel[id]].owner.None? { return false; }
        todo := todo - {id};
      }
      ok := true;
    }

    method ReadGroup(z: Codec, deep: bool, groups: map<Bytes, Loaded>) returns (r: Option<map<Bytes, Loaded>>)
      modifies this`input
      ensures (r, input) == LoadGroup(z, old(input), deep, groups)
    {
      hide LoadString, LoadLen, LoadEntries, LoadConsumers, AllOwned;
      var name := ReadString(z);
      if name.None? { return None; }
      var ms := ReadLen();
      var sq := ReadLen();
      if input.bad { return None; }
      var entriesRead := ReadLen();
      if input.bad || name.value in groups { return None; }
      var n := ReadLen();
      if n == LENERR { return None; }
      var l := ReadEntries(n, Loaded(ms, sq, entriesRead, map[], map[], map[], 0));
      if l.None? { return None; }
      var m := ReadLen();
      if m == LENERR { return None; }
      l := ReadConsumers(z, m, l.value);
      if l.None? { return None; }
      if deep {
        var ok := CheckOwned(l.value);
        if !ok { return None; }
      }
      r := Some(groups[name.value := l.value]);
    }

    method ReadGroups(e: Env, n: nat) returns (acc: Option<map<Bytes, Loaded>>)
      modifies this`input
      ensures (acc, input) == LoadGroups(e, old(input), n, map[])
    {
      hide LoadGroup;
      var left, gs := n, map[];
      while left > 0
        invariant LoadGroups(e, old(input), n, map[]) == LoadGroups(e, input, left, gs)
      {
        var m := ReadGroup(e.z, e.deep, gs);
        if m.None? { return None; }
        gs := m.value;
        left := left - 1;
      }
      acc := Some(gs);
    }

    method ReadStream(e: Env) returns (r: Result)
      modifies this`input
      ensures (r, input) == LoadStream(e, old(input))
    {
      hide LoadLen, LoadPacks, LoadHeads, LoadGroups;
      var n := ReadLen();
      if n == LENERR { return Fail; }
      var packs := ReadPacks(e, n);
      if packs.None? { return Fail; }
      var heads := ReadHeads(8);
      if input.bad || (heads[0] != 0 && packs.value == map[]) { return Fail; }
      var m := ReadLen();
      if m == LENERR { return Fail; }
      var groups := ReadGroups(e, m);
      r := if groups.None? then Fail else Got(OStream(packs.value, heads, groups.value));
    }

    // --------------------------------------------------------------------- objects

    /** rdbLoadObject. */
    method ReadObject(e: Env, kind: nat) returns (r: Result)
      modifies this`input
      ensures (r, input) == LoadObject(e, kind, old(input))
    {
      hide LoadLen, LoadString, LoadNodes, LoadMembers, LoadElems, LoadHash, LoadStream, LoadTime;
      if kind == TYPE_STRING {
        var s := ReadString(e.z);
        return if s.None? then Fail else Got(OString(s.value));
      }
      if kind == TYPE_LIST_QUICKLIST_2 || kind == TYPE_SET || kind == TYPE_ZSET_2 {
        var n := ReadLen();
        if n == LENERR { return Fail; }
        if n == 0 { return EmptyKey; }
        if kind == TYPE_LIST_QUICKLIST_2 {
          var ns := ReadNodes(e, n);
          return if ns.None? then Fail else if ns.value == [] then EmptyKey else Got(OList(ns.value));
        }
        if kind == TYPE_SET {
          var ms := ReadMembers(e.z, n);
          return if ms.None? then Fail else Got(OSet(ms.value));
        }
        var es := ReadElems(e.z, n);
        return if es.None? then Fail else Got(OZset(es.value));
      }
      if kind == TYPE_HASH || kind == TYPE_HASH_METADATA {
        r := ReadHash(e.z, kind == TYPE_HASH_METADATA);
        return;
      }
      if IsPacked(kind) {
        if kind == TYPE_HASH_LISTPACK_EX {
          var _ := ReadTime();
        }
        if input.bad { return Fail; }
        var blob := ReadString(e.z);
        if blob.None? || !e.packOk(kind, blob.value) { return Fail; }
        if e.packCount(kind, blob.value) == 0 { return EmptyKey; }
        return Got(OPacked(kind, blob.value));
      }
      if kind == TYPE_STREAM_LISTPACKS_3 {
        r := ReadStream(e);
        return;
      }
      r := Fail;
    }

    // ------------------------------------------------------------------- the file

    /** dbAddRDBLoad: a key that is there already is an error unless duplicates are allowed. */
    method AddKey(db: nat, key: Bytes, x: Entry, allowDup: bool) returns (ok: bool)
      modifies this`dbs
      ensures ok == (allowDup || key !in Keys(State(old(dbs), db, NO_ATTRS), db))
      ensures dbs == if ok then old(dbs)[db := Keys(State(old(dbs), db, NO_ATTRS), db)[key := x]] else old(dbs)
    {
      var m := if db in dbs then dbs[db] else map[];
      if key in m && !allowDup { return false; }
      dbs := dbs[db := m[key := x]];
      ok := true;
    }

    /** The record of a key, with the attributes that wait for it. */
    method ReadRecord(c: Config, kind: nat, db: nat, attrs: Attrs) returns (ok: bool)
      modifies this
      ensures
        var r := LoadRecord(c, kind, old(input), State(old(dbs), db, attrs));
        if ok then r == Continue(State(dbs, db, NO_ATTRS), input) else r == Error
    {
      hide LoadString, LoadObject;
      var key := ReadString(c.env.z);
      if key.None? { return false; }
      var o := ReadObject(c.env, kind);
      match o
      case Fail => ok := false;
      case EmptyKey => ok := true;
      case Got(value) =>
        if c.dropsExpired && attrs.expire != -1 && attrs.expire < c.now { return true; }
        ok := AddKey(db, key.value, Entry(value, attrs), c.allowDup);
    }

    /** The loop of rdbLoadRioWithLoadingCtx over opcodes and records. */
    method ReadAll(c: Config) returns (ok: bool)
      modifies this
      ensures
        var r := Loop(c, old(input), State(old(dbs), 0, NO_ATTRS));
        if ok then r.Some? && r.value.0.dbs == dbs && r.value.1 == input else r.None?
    {
      hide LoadLen, LoadString, LoadTime, LoadRecord, Seconds;
      var db: nat, attrs := 0, NO_ATTRS;
      ghost var start := State(dbs, 0, NO_ATTRS);
      while true
        invariant Loop(c, old(input), start) == Loop(c, input, State(dbs, db, attrs))
        decreases |input.rest|
      {
        ghost var i0, st0 := input, State(dbs, db, attrs);
        var b := ReadRaw(1);
        if b.None? { return false; }
        var op := b.value[0];
        if op == OP_EOF { return true; }
        if op == OP_EXPIRETIME {
          var t := ReadRaw(4);
          if t.None? { return false; }
          attrs := attrs.(expire := Seconds(t.value));
        } else if op == OP_EXPIRETIME_MS {
          var t := ReadTime();
          if input.bad { return false; }
          attrs := attrs.(expire := t);
        } else if op == OP_FREQ {
          var f := ReadRaw(1);
          if f.None? { return false; }
          attrs := attrs.(freq := f.value[0]);
        } else if op == OP_IDLE {
          var n := ReadLen();
          if n == LENERR { return false; }
          attrs := attrs.(idle := AsLongLong(n));
        } else if op == OP_SELECTDB {
          var n := ReadLen();
          if n == LENERR || n >= c.dbnum { return false; }
          db := n;
        } else if op == OP_RESIZEDB {
          var n := ReadLen();
          var m := ReadLen();
          if n == LENERR || m == LENERR { return false; }
        } else if op == OP_SLOT_INFO {
          var a := ReadLen();
          var n := ReadLen();
          var m := ReadLen();
          if a == LENERR || n == LENERR || m == LENERR { return false; }
        } else if op == OP_AUX {
          var k := ReadString(c.env.z);
          if k.None? { return false; }
          var v := ReadString(c.env.z);
          if v.None? { return false; }
        } else if op > OP_SLOT_INFO {
          return false;
        } else {
          var done := ReadRecord(c, op, db, attrs);
          if !done { return false; }
          attrs := NO_ATTRS;
        }
        LoopStep(c, i0, st0);
      }
    }

    /** rdbLoadRioWithLoadingCtx. */
    method ReadFile(c: Config) returns (ok: bool)
      requires !input.bad
      modifies this
      ensures ok == LoadInto(c, old(input).rest, old(dbs)).Some?
      ensures ok ==> dbs == LoadInto(c, old(input).rest, old(dbs)).value
    {
      hide Loop, Version, FromLittleEndian;
      var file := input.rest;
      var magic := ReadRaw(9);
      if magic.None? || magic.value[..5] != [82, 69, 68, 73, 83] { return false; }
      var version := Version(magic.value[5..]);
      if version < 1 || version > RDB_VERSION { return false; }
      ok := ReadAll(c);
      if !ok { return; }
      if version >= 5 {
        ghost var i1 := input;
        var consumed := |file| - |input.rest|;
        var sum := ReadRaw(8);
        if sum.None? { return false; }
        var stored := FromLittleEndian(sum.value);
        if c.crc.Some? && stored != 0 && consumed >= 0 && stored != c.crc.value(file[..consumed]) { return false; }
      }
    }
  }
}
