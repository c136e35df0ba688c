/** Whole RDB files: databases of keys with their expire times and usage, written as a sequence of
    opcodes and records, and read back by one loop. */
module RdbFile {
  import opened Wrappers
  import opened RdbBytes
  import opened RdbStrings
  import opened RdbStream
  import opened RdbObjects

  const RDB_VERSION := 12

  const OP_SLOT_INFO := 244
  const OP_IDLE := 248
  const OP_FREQ := 249
  const OP_AUX := 250
  const OP_RESIZEDB := 251
  const OP_EXPIRETIME_MS := 252
  const OP_EXPIRETIME := 253
  const OP_SELECTDB := 254
  const OP_EOF := 255

  /** What the eviction policy records about a key. */
  datatype Usage = NoUsage | Idle(seconds: uint64) | Freq(counter: byte)

  /** A key with its value; expire is -1 for none; slot is the cluster information written before
      the first key of a slot. */
  datatype Item = Item(key: Bytes, value: Value, expire: int64, usage: Usage, slot: Option<(uint64, uint64, uint64)>)

  datatype Database = Database(id: uint64, items: seq<Item>)

  /** aux are the informational fields; the checksum covers everything before it. */
  datatype File = File(aux: seq<(Bytes, Bytes)>, dbs: seq<Database>)

  /** The loading side: limits, whether keys that have expired are dropped, whether a key may come
      twice, and the checksum function if checksums are in use. */
  datatype Config = Config(env: Env, dbnum: nat, dropsExpired: bool, now: int64, allowDup: bool,
                           crc: Option<Bytes -> uint64>)

  // ------------------------------------------------------------------- saving

  ghost predicate ItemFits(e: Env, it: Item) {
    Small(|it.key|) && Fits(e, it.value) && (it.usage.Idle? ==> it.usage.seconds < LENERR)
    && TypeOf(it.value) < OP_SLOT_INFO
  }

  function SaveSlot(s: Option<(uint64, uint64, uint64)>): Bytes {
    match s
    case None => []
    case Some((a, b, c)) => [OP_SLOT_INFO] + SaveLen(a) + SaveLen(b) + SaveLen(c)
  }

  function SaveExpire(t: int64): Bytes {
    if t == -1 then [] else [OP_EXPIRETIME_MS] + SaveTime(t)
  }

  function SaveUsage(u: Usage): Bytes {
    match u
    case NoUsage => []
    case Idle(n) => [OP_IDLE] + SaveLen(n)
    case Freq(c) => [OP_FREQ, c]
  }

  ghost function SaveRecord(e: Env, it: Item): Bytes
    requires ItemFits(e, it)
  {
    [TypeOf(it.value)] + SaveString(e.z, it.key) + SaveObject(e, it.value)
  }

  /** rdbSaveKeyValuePair, after the slot information. */
  ghost function SaveItem(e: Env, it: Item): Bytes
    requires ItemFits(e, it)
  {
    SaveSlot(it.slot) + SaveExpire(it.expire) + SaveUsage(it.usage) + SaveRecord(e, it)
  }

  ghost function SaveItems(e: Env, its: seq<Item>): Bytes
    requires forall it :: it in its ==> ItemFits(e, it)
  {
    if its == [] then []
    else
      assert ItemFits(e, its[0]);
      SaveItem(e, its[0]) + SaveItems(e, its[1..])
  }

  function Expires(its: seq<Item>): (n: nat)
    ensures n <= |its|
  {
    if its == [] then 0 else (if its[0].expire != -1 then 1 else 0) + Expires(its[1..])
  }

  ghost predicate DbFits(e: Env, d: Database) {
    Small(|d.items|) && d.id < LENERR && forall it :: it in d.items ==> ItemFits(e, it)
  }

  /** rdbSaveDb: an empty database leaves no trace. */
  ghost function SaveDb(e: Env, d: Database): Bytes
    requires DbFits(e, d)
  {
    if d.items == [] then []
    else
      [OP_SELECTDB] + SaveLen(d.id) + ([OP_RESIZEDB] + SaveLen(|d.items|) + SaveLen(Expires(d.items)))
        + SaveItems(e, d.items)
  }

  ghost function SaveDbs(e: Env, ds: seq<Database>): Bytes
    requires forall d :: d in ds ==> DbFits(e, d)
  {
    if ds == [] then []
    else
      assert DbFits(e, ds[0]);
      SaveDb(e, ds[0]) + SaveDbs(e, ds[1..])
  }

  predicate AuxFits(a: (Bytes, Bytes)) {
    Small(|a.0|) && Small(|a.1|)
  }

  function SaveAux(z: Codec, aux: seq<(Bytes, Bytes)>): Bytes
    requires forall a :: a in aux ==> AuxFits(a)
  {
    if aux == [] then []
    else
      assert AuxFits(aux[0]);
      [OP_AUX] + SaveString(z, aux[0].0) + SaveString(z, aux[0].1) + SaveAux(z, aux[1..])
  }

  /** "REDIS" and the version in four digits. */
  function Magic(version: nat): Bytes {
    [82, 69, 68, 73, 83]
      + [48 + version / 1000 % 10, 48 + version / 100 % 10, 48 + version / 10 % 10, 48 + version % 10]
  }

  ghost predicate FileFits(e: Env, f: File) {
    (forall a :: a in f.aux ==> AuxFits(a)) && (forall d :: d in f.dbs ==> DbFits(e, d))
  }

  ghost function SaveBody(e: Env, f: File): Bytes
    requires FileFits(e, f)
  {
    Magic(RDB_VERSION) + SaveAux(e.z, f.aux) + SaveDbs(e, f.dbs) + [OP_EOF]
  }

  /** rdbSaveRio; without checksums the field is 0. */
  ghost function SaveFile(e: Env, f: File, crc: Option<Bytes -> uint64>): Bytes
    requires FileFits(e, f)
  {
    var body := SaveBody(e, f);
    body + LittleEndian(if crc.Some? then crc.value(body) else 0, 8)
  }

  // ------------------------------------------------------------------ loading

  /** What opcodes have said about the key to come. */
  datatype Attrs = Attrs(expire: int64, freq: int, idle: int)

  const NO_ATTRS := Attrs(-1, -1, -1)

  datatype Entry = Entry(o: Object, attrs: Attrs)

  datatype State = State(dbs: map<nat, map<Bytes, Entry>>, db: nat, attrs: Attrs)

  datatype Outcome = Continue(st: State, i: In) | Done(st: State, i: In) | Error

  function Keys(st: State, db: nat): map<Bytes, Entry> {
    if db in st.dbs then st.dbs[db] else map[]
  }

  /** The record of a key: its value is added to the current database unless it is empty or has
      expired, and the attributes are cleared in every case. */
  function LoadRecord(c: Config, kind: nat, i: In, st: State): (r: Outcome)
    ensures !r.Error? ==> r.Continue? && |r.i.rest| <= |i.rest|
  {
    var (key, i1) := LoadString(c.env.z, i);
    if key.None? then Error
    else
      match LoadObject(c.env, kind, i1)
      case (Fail, _) => Error
      case (EmptyKey, i2) => Continue(st.(attrs := NO_ATTRS), i2)
      case (Got(o), i2) =>
        if c.dropsExpired && st.attrs.expire != -1 && st.attrs.expire < c.now then Continue(st.(attrs := NO_ATTRS), i2)
        else if key.value in Keys(st, st.db) && !c.allowDup then Error
        else Continue(State(st.dbs[st.db := Keys(st, st.db)[key.value := Entry(o, st.attrs)]], st.db, NO_ATTRS), i2)
  }

  /** One round of the loop of rdbLoadRioWithLoadingCtx. */
  function Step(c: Config, i: In, st: State): (r: Outcome)
    ensures !r.Error? ==> |r.i.rest| < |i.rest|
  {
    var (b, i1) := Read(i, 1);
    if b.None? then Error
    else
      var op := b.value[0];
      if op == OP_EXPIRETIME then
        var (t, i2) := Read(i1, 4);
        if t.None? then Error
        else Continue(st.(attrs := st.attrs.(expire := Seconds(t.value))), i2)
      else if op == OP_EXPIRETIME_MS then
        var (t, i2) := LoadTime(i1);
        if i2.bad then Error else Continue(st.(attrs := st.attrs.(expire := t)), i2)
      else if op == OP_FREQ then
        var (f, i2) := Read(i1, 1);
        if f.None? then Error else Continue(st.(attrs := st.attrs.(freq := f.value[0])), i2)
      else if op == OP_IDLE then
        var (n, i2) := LoadLen(i1);
        if n == LENERR then Error else Continue(st.(attrs := st.attrs.(idle := AsLongLong(n))), i2)
      else if op == OP_EOF then Done(st, i1)
      else if op == OP_SELECTDB then
        var (n, i2) := LoadLen(i1);
        if n == LENERR || n >= c.dbnum then Error else Continue(st.(db := n), i2)
      else if op == OP_RESIZEDB then
        var (n, i2) := LoadLen(i1);
        var (m, i3) := LoadLen(i2);
        if n == LENERR || m == LENERR then Error else Continue(st, i3)
      else if op == OP_SLOT_INFO then
        var (a, i2) := LoadLen(i1);
        var (n, i3) := LoadLen(i2);
        var (m, i4) := LoadLen(i3);
        if a == LENERR || n == LENERR || m == LENERR then Error else Continue(st, i4)
      else if op == OP_AUX then
        var (k, i2) := LoadString(c.env.z, i1);
        if k.None? then Error
        else
          var (v, i3) := LoadString(c.env.z, i2);
          if v.None? then Error else Continue(st, i3)
      else if op > OP_SLOT_INFO then Error
      else LoadRecord(c, op, i1, st)
  }

  /** A length kept in a long long: the idle times that a server can have are below 2^63. */
  function AsLongLong(n: uint64): int64 {
    if n < 0x8000_0000_0000_0000 then n else (n as int) - U64
  }

  /** A 32-bit expire time in seconds. */
  function Seconds(s: Bytes): int64
    requires |s| == 4
  {
    Powers();
    LittleEndianBound(s);
    Signed(FromLittleEndian(s), 4) * 1000
  }

  function Loop(c: Config, i: In, st: State): Option<(State, In)>
    decreases |i.rest|
  {
    match Step(c, i, st)
    case Error => None
    case Done(st1, i1) => Some((st1, i1))
    case Continue(st1, i1) => Loop(c, i1, st1)
  }

  /** What isspace accepts. */
  predicate IsBlank(b: byte) {
    b == 32 || 9 <= b <= 13
  }

  predicate IsDigit(b: byte) {
    48 <= b <= 57
  }

  /** atoi of the four bytes of the version: blanks, a sign and digits, up to the first other byte. */
  function Version(s: Bytes): int {
    if s == [] then 0
    else if IsBlank(s[0]) then Version(s[1..])
    else if s[0] == 45 then 0 - Prefix(s[1..], 0)
    else if s[0] == 43 then Prefix(s[1..], 0)
    else Prefix(s, 0)
  }

  function Prefix(s: Bytes, n: nat): nat {
    if s == [] || !IsDigit(s[0]) then n else Prefix(s[1..], n * 10 + (s[0] as nat) - 48)
  }

  const START := State(map[], 0, NO_ATTRS)

  /** rdbLoadRioWithLoadingCtx: what the databases hold in the end. */
  function LoadInto(c: Config, file: Bytes, dbs: map<nat, map<Bytes, Entry>>): Option<map<nat, map<Bytes, Entry>>> {
    var (magic, i) := Read(In(file, false), 9);
    if magic.None? || magic.value[..5] != [82, 69, 68, 73, 83] then None
    else
      var version := Version(magic.value[5..]);
      if version < 1 || version > RDB_VERSION then None
      else
        match Loop(c, i, State(dbs, 0, NO_ATTRS))
        case None => None
        case Some((st, i1)) =>
          if version < 5 then Some(st.dbs)
          else
            var (sum, _) := Read(i1, 8);
            if sum.None? then None
            else if c.crc.Some? && FromLittleEndian(sum.value) != 0 && |i1.rest| <= |file|
                    && FromLittleEndian(sum.value) != c.crc.value(file[..|file| - |i1.rest|])
            then None
            else Some(st.dbs)
  }

  /** Loading into an empty server. */
  function LoadFile(c: Config, file: Bytes): Option<map<nat, map<Bytes, Entry>>> {
    LoadInto(c, file, map[])
  }

  // ------------------------------------------------------------ opcode by opcode

  lemma LoopStep(c: Config, i: In, st: State)
    requires Step(c, i, st).Continue?
    ensures Loop(c, i, st) == Loop(c, Step(c, i, st).i, Step(c, i, st).st)
  {
  }

  lemma ReadOp(op: byte, tail: Bytes)
    ensures Read(In([op] + tail, false), 1) == (Some([op]), In(tail, false))
  {
    ReadBack([op], tail);
  }

  lemma SlotLoop(c: Config, s: Option<(uint64, uint64, uint64)>, st: State, rest: Bytes)
    requires s.Some? ==> s.value.0 < LENERR && s.value.1 < LENERR && s.value.2 < LENERR
    ensures Loop(c, In(SaveSlot(s) + rest, false), st) == Loop(c, In(rest, false), st)
  {
    hide SaveLen, LoadLen, Loop, LoadTime, LoadString, LoadRecord;
    match s
    case None => assert SaveSlot(s) + rest == rest;
    case Some((a, b, n)) =>
      var t := SaveLen(a) + (SaveLen(b) + (SaveLen(n) + rest));
      assert SaveSlot(s) + rest == [OP_SLOT_INFO] + t;
      ReadOp(OP_SLOT_INFO, t);
      LenRoundTrip(a, SaveLen(b) + (SaveLen(n) + rest));
      LenRoundTrip(b, SaveLen(n) + rest);
      LenRoundTrip(n, rest);
      LoopStep(c, In(SaveSlot(s) + rest, false), st);
  }

  lemma ExpireLoop(c: Config, t: int64, st: State, rest: Bytes)
    requires st.attrs.expire == -1
    ensures Loop(c, In(SaveExpire(t) + rest, false), st)
      == Loop(c, In(rest, false), st.(attrs := st.attrs.(expire := t)))
  {
    hide SaveLen, LoadLen, Loop, SaveTime, LoadTime, LoadString, LoadRecord;
    if t == -1 {
      assert SaveExpire(t) + rest == rest;
    } else {
      assert SaveExpire(t) + rest == [OP_EXPIRETIME_MS] + (SaveTime(t) + rest);
      ReadOp(OP_EXPIRETIME_MS, SaveTime(t) + rest);
      TimeRoundTrip(t, rest);
      LoopStep(c, In(SaveExpire(t) + rest, false), st);
    }
  }

  function WithUsage(a: Attrs, u: Usage): Attrs {
    match u
    case NoUsage => a
    case Idle(n) => a.(idle := AsLongLong(n))
    case Freq(f) => a.(freq := f)
  }

  lemma UsageLoop(c: Config, u: Usage, st: State, rest: Bytes)
    requires u.Idle? ==> u.seconds < LENERR
    ensures Loop(c, In(SaveUsage(u) + rest, false), st)
      == Loop(c, In(rest, false), st.(attrs := WithUsage(st.attrs, u)))
  {
    hide SaveLen, LoadLen, Loop, SaveTime, LoadTime, LoadString, LoadRecord;
    match u
    case NoUsage => assert SaveUsage(u) + rest == rest;
    case Idle(n) =>
      assert SaveUsage(u) + rest == [OP_IDLE] + (SaveLen(n) + rest);
      ReadOp(OP_IDLE, SaveLen(n) + rest);
      LenRoundTrip(n, rest);
      LoopStep(c, In(SaveUsage(u) + rest, false), st);
    case Freq(f) =>
      assert SaveUsage(u) + rest == [OP_FREQ] + ([f] + rest);
      ReadOp(OP_FREQ, [f] + rest);
      ReadOp(f, rest);
      LoopStep(c, In(SaveUsage(u) + rest, false), st);
  }

  predicate Expired(c: Config, t: int64) {
    c.dropsExpired && t != -1 && t < c.now
  }

  ghost function WithKey(c: Config, st: State, it: Item): State
    requires Fits(c.env, it.value)
  {
    State(st.dbs[st.db := Keys(st, st.db)[it.key := Entry(ObjectOf(c.env, it.value), st.attrs)]], st.db, NO_ATTRS)
  }

  lemma RecordLoop(c: Config, it: Item, st: State, rest: Bytes)
    requires LzfInverts(c.env.z.lzf) && ItemFits(c.env, it) && it.key !in Keys(st, st.db)
      && !Expired(c, st.attrs.expire)
    ensures Loop(c, In(SaveRecord(c.env, it) + rest, false), st) == Loop(c, In(rest, false), WithKey(c, st, it))
  {
    hide SaveLen, LoadLen, Loop, LoadTime, SaveString, LoadString, SaveObject, LoadObject, Fits, ObjectOf;
    var kind := TypeOf(it.value);
    var body := SaveObject(c.env, it.value) + rest;
    assert SaveRecord(c.env, it) + rest == [kind] + (SaveString(c.env.z, it.key) + body);
    hide TypeOf;
    ReadOp(kind, SaveString(c.env.z, it.key) + body);
    StringRoundTrip(c.env.z, it.key, body);
    ObjectRoundTrip(c.env, it.value, rest);
    LoopStep(c, In(SaveRecord(c.env, it) + rest, false), st);
  }

  // ------------------------------------------------------------- items and more

  function AttrsOf(it: Item): Attrs {
    WithUsage(Attrs(it.expire, -1, -1), it.usage)
  }

  ghost predicate ItemOk(c: Config, it: Item) {
    && ItemFits(c.env, it) && !Expired(c, it.expire)
    && (it.slot.Some? ==> it.slot.value.0 < LENERR && it.slot.value.1 < LENERR && it.slot.value.2 < LENERR)
  }

  ghost function AddItem(c: Config, st: State, it: Item): State
    requires Fits(c.env, it.value)
  {
    State(st.dbs[st.db := Keys(st, st.db)[it.key := Entry(ObjectOf(c.env, it.value), AttrsOf(it))]], st.db, NO_ATTRS)
  }

  lemma ItemLoop(c: Config, it: Item, st: State, rest: Bytes)
    requires LzfInverts(c.env.z.lzf) && ItemOk(c, it) && it.key !in Keys(st, st.db) && st.attrs == NO_ATTRS
    ensures Loop(c, In(SaveItem(c.env, it) + rest, false), st) == Loop(c, In(rest, false), AddItem(c, st, it))
  {
    hide Loop, SaveRecord, SaveSlot, SaveExpire, SaveUsage, Fits, ObjectOf;
    var t3 := SaveRecord(c.env, it) + rest;
    var t2 := SaveUsage(it.usage) + t3;
    var t1 := SaveExpire(it.expire) + t2;
    assert SaveItem(c.env, it) + rest == SaveSlot(it.slot) + t1;
    SlotLoop(c, it.slot, st, t1);
    ExpireLoop(c, it.expire, st, t2);
    var st1 := st.(attrs := st.attrs.(expire := it.expire));
    UsageLoop(c, it.usage, st1, t3);
    var st2 := st1.(attrs := WithUsage(st1.attrs, it.usage));
    RecordLoop(c, it, st2, rest);
  }

  predicate DistinctKeys(its: seq<Item>) {
    forall i, j :: 0 <= i < j < |its| ==> its[i].key != its[j].key
  }

  ghost function AddItems(c: Config, st: State, its: seq<Item>): State
    requires forall it :: it in its ==> ItemOk(c, it)
    decreases |its|
  {
    if its == [] then st
    else
      assert ItemOk(c, its[0]);
      AddItems(c, AddItem(c, st, its[0]), its[1..])
  }

  lemma {:induction false} ItemsLoop(c: Config, its: seq<Item>, st: State, rest: Bytes)
    requires LzfInverts(c.env.z.lzf) && DistinctKeys(its) && st.attrs == NO_ATTRS
    requires forall it :: it in its ==> ItemOk(c, it) && it.key !in Keys(st, st.db)
    ensures (forall it :: it in its ==> ItemFits(c.env, it))
      && Loop(c, In(SaveItems(c.env, its) + rest, false), st) == Loop(c, In(rest, false), AddItems(c, st, its))
    decreases |its|
  {
    hide Loop, SaveItem, ObjectOf, Fits;
    forall it | it in its ensures ItemFits(c.env, it) { assert ItemOk(c, it); }
    if its == [] {
      assert SaveItems(c.env, its) + rest == rest;
    } else {
      assert ItemOk(c, its[0]);
      var more := SaveItems(c.env, its[1..]) + rest;
      assert SaveItems(c.env, its) + rest == SaveItem(c.env, its[0]) + more;
      ItemLoop(c, its[0], st, more);
      ItemsLoop(c, its[1..], AddItem(c, st, its[0]), rest);
    }
  }

  ghost predicate DbOk(c: Config, d: Database) {
    && Small(|d.items|) && d.id < c.dbnum && d.id < LENERR && DistinctKeys(d.items)
    && forall it :: it in d.items ==> ItemOk(c, it)
  }

  ghost function AddDb(c: Config, st: State, d: Database): State
    requires DbOk(c, d)
  {
    if d.items == [] then st else AddItems(c, st.(db := d.id), d.items)
  }

  lemma DbIsFit(c: Config, d: Database)
    requires DbOk(c, d)
    ensures DbFits(c.env, d)
  {
    forall it | it in d.items ensures ItemFits(c.env, it) { assert ItemOk(c, it); }
  }

  lemma DbLoop(c: Config, d: Database, st: State, rest: Bytes)
    requires LzfInverts(c.env.z.lzf) && DbOk(c, d) && d.id !in st.dbs && st.attrs == NO_ATTRS
    ensures DbFits(c.env, d)
      && Loop(c, In(SaveDb(c.env, d) + rest, false), st) == Loop(c, In(rest, false), AddDb(c, st, d))
  {
    hide Loop, SaveLen, LoadLen, LoadTime, LoadString, LoadRecord, SaveItems, AddItems, ItemOk, ItemFits;
    DbIsFit(c, d);
    if d.items == [] {
      assert SaveDb(c.env, d) + rest == rest;
    } else {
      var t2 := SaveItems(c.env, d.items) + rest;
      var n, m := |d.items|, Expires(d.items);
      var t1 := [OP_RESIZEDB] + (SaveLen(n) + (SaveLen(m) + t2));
      assert SaveDb(c.env, d) + rest == [OP_SELECTDB] + (SaveLen(d.id) + t1);
      ReadOp(OP_SELECTDB, SaveLen(d.id) + t1);
      LenRoundTrip(d.id, t1);
      LoopStep(c, In(SaveDb(c.env, d) + rest, false), st);
      var st1 := st.(db := d.id);
      ReadOp(OP_RESIZEDB, SaveLen(n) + (SaveLen(m) + t2));
      LenRoundTrip(n, SaveLen(m) + t2);
      LenRoundTrip(m, t2);
      LoopStep(c, In(t1, false), st1);
      ItemsLoop(c, d.items, st1, rest);
    }
  }

  ghost function AddDbs(c: Config, st: State, ds: seq<Database>): State
    requires forall d :: d in ds ==> DbOk(c, d)
    decreases |ds|
  {
    if ds == [] then st
    else
      assert DbOk(c, ds[0]);
      AddDbs(c, AddDb(c, st, ds[0]), ds[1..])
  }

  predicate DistinctDbs(ds: seq<Database>) {
    forall i, j :: 0 <= i < j < |ds| ==> ds[i].id != ds[j].id
  }

  /** What a database holds after its keys have been added to what it held. */
  ghost function Pour(c: Config, m: map<Bytes, Entry>, its: seq<Item>): map<Bytes, Entry>
    requires forall it :: it in its ==> ItemOk(c, it)
    decreases |its|
  {
    if its == [] then m
    else
      assert ItemOk(c, its[0]);
      Pour(c, m[its[0].key := Entry(ObjectOf(c.env, its[0].value), AttrsOf(its[0]))], its[1..])
  }

  lemma {:induction false} AddItemsPours(c: Config, st: State, its: seq<Item>)
    requires its != [] && forall it :: it in its ==> ItemOk(c, it)
    ensures AddItems(c, st, its) == State(st.dbs[st.db := Pour(c, Keys(st, st.db), its)], st.db, NO_ATTRS)
    decreases |its|
  {
    hide ObjectOf, Fits, AttrsOf;
    assert ItemOk(c, its[0]);
    var st1 := AddItem(c, st, its[0]);
    if its[1..] != [] {
      AddItemsPours(c, st1, its[1..]);
      var m := Pour(c, Keys(st1, st.db), its[1..]);
      assert st1.dbs[st.db := m] == st.dbs[st.db := m];
    }
  }

  lemma {:induction false} PourKeeps(c: Config, m: map<Bytes, Entry>, its: seq<Item>, key: Bytes)
    requires forall it :: it in its ==> ItemOk(c, it) && it.key != key
    ensures var r := Pour(c, m, its); key in r <==> key in m
    ensures key in m ==> Pour(c, m, its)[key] == m[key]
    decreases |its|
  {
    hide ObjectOf, Fits, AttrsOf;
    if its != [] {
      assert ItemOk(c, its[0]);
      PourKeeps(c, m[its[0].key := Entry(ObjectOf(c.env, its[0].value), AttrsOf(its[0]))], its[1..], key);
    }
  }

  lemma {:induction false} PourHas(c: Config, m: map<Bytes, Entry>, its: seq<Item>, k: nat)
    requires DistinctKeys(its) && k < |its| && forall it :: it in its ==> ItemOk(c, it)
    ensures ItemOk(c, its[k]) && its[k].key in Pour(c, m, its)
    ensures Pour(c, m, its)[its[k].key] == Entry(ObjectOf(c.env, its[k].value), AttrsOf(its[k]))
    decreases k
  {
    hide ObjectOf, Fits, AttrsOf;
    assert ItemOk(c, its[0]) && ItemOk(c, its[k]);
    var m1 := m[its[0].key := Entry(ObjectOf(c.env, its[0].value), AttrsOf(its[0]))];
    if k == 0 {
      PourKeeps(c, m1, its[1..], its[0].key);
    } else {
      PourHas(c, m1, its[1..], k - 1);
    }
  }

  lemma PourHolds(c: Config, d: Database)
    requires DbOk(c, d)
    ensures Holds(c, d, Pour(c, map[], d.items))
  {
    hide ObjectOf, AttrsOf, Pour, ItemOk, Fits;
    var m := Pour(c, map[], d.items);
    OkFits(c, d.items);
    forall it | it in d.items
      ensures it.key in m && m[it.key] == Entry(ObjectOf(c.env, it.value), AttrsOf(it))
    {
      var k :| 0 <= k < |d.items| && d.items[k] == it;
      PourHas(c, map[], d.items, k);
    }
    forall key | key in m ensures key in set it | it in d.items :: it.key {
      if forall it :: it in d.items ==> it.key != key { PourKeeps(c, map[], d.items, key); }
    }
    assert m.Keys == (set it | it in d.items :: it.key);
  }

  lemma OkFits(c: Config, its: seq<Item>)
    requires forall it :: it in its ==> ItemOk(c, it)
    ensures forall it :: it in its ==> Fits(c.env, it.value)
  {
    hide Fits;
    forall it | it in its ensures Fits(c.env, it.value) { assert ItemOk(c, it); }
  }

  lemma AddDbKeeps(c: Config, st: State, d: Database)
    requires DbOk(c, d) && st.attrs == NO_ATTRS && d.id !in st.dbs
    ensures AddDb(c, st, d).attrs == NO_ATTRS
    ensures AddDb(c, st, d).dbs == if d.items == [] then st.dbs else st.dbs[d.id as nat := Pour(c, map[], d.items)]
  {
    hide AddItems, ItemOk, Pour;
    if d.items != [] { AddItemsPours(c, st.(db := d.id), d.items); }
  }

  /** The keys of a database with their values, expire times and usage, and no others. */
  ghost predicate Holds(c: Config, d: Database, m: map<Bytes, Entry>) {
    && m.Keys == (set it | it in d.items :: it.key)
    && forall it ::
         it in d.items ==> Fits(c.env, it.value) && m[it.key] == Entry(ObjectOf(c.env, it.value), AttrsOf(it))
  }

  lemma {:induction false} DbsLoop(c: Config, ds: seq<Database>, st: State, rest: Bytes)
    requires LzfInverts(c.env.z.lzf) && DistinctDbs(ds) && st.attrs == NO_ATTRS
    requires forall d :: d in ds ==> DbOk(c, d) && d.id !in st.dbs
    ensures (forall d :: d in ds ==> DbFits(c.env, d))
      && Loop(c, In(SaveDbs(c.env, ds) + rest, false), st) == Loop(c, In(rest, false), AddDbs(c, st, ds))
    decreases |ds|
  {
    hide Loop, SaveDb, AddDb, DbOk, DbFits;
    forall d | d in ds ensures DbFits(c.env, d) { DbIsFit(c, d); }
    if ds == [] {
      assert SaveDbs(c.env, ds) + rest == rest;
    } else {
      var more := SaveDbs(c.env, ds[1..]) + rest;
      assert SaveDbs(c.env, ds) + rest == SaveDb(c.env, ds[0]) + more;
      DbLoop(c, ds[0], st, more);
      AddDbKeeps(c, st, ds[0]);
      DbsLoop(c, ds[1..], AddDb(c, st, ds[0]), rest);
    }
  }

  lemma {:induction false} AddDbsKeeps(c: Config, st: State, ds: seq<Database>, n: nat)
    requires DistinctDbs(ds) && st.attrs == NO_ATTRS && forall d :: d in ds ==> DbOk(c, d) && d.id !in st.dbs
    requires forall d :: d in ds && d.items != [] ==> d.id != n
    ensures n in AddDbs(c, st, ds).dbs <==> n in st.dbs
    ensures n in st.dbs ==> AddDbs(c, st, ds).dbs[n] == st.dbs[n]
    decreases |ds|
  {
    hide DbOk, AddDb, Pour;
    if ds != [] {
      AddDbKeeps(c, st, ds[0]);
      AddDbsKeeps(c, AddDb(c, st, ds[0]), ds[1..], n);
    }
  }

  lemma {:induction false} AddDbsHas(c: Config, st: State, ds: seq<Database>, k: nat)
    requires DistinctDbs(ds) && st.attrs == NO_ATTRS && forall d :: d in ds ==> DbOk(c, d) && d.id !in st.dbs
    requires k < |ds| && ds[k].items != []
    ensures ds[k].id in AddDbs(c, st, ds).dbs && Holds(c, ds[k], AddDbs(c, st, ds).dbs[ds[k].id])
    decreases k
  {
    hide DbOk, AddDb, Pour, Holds;
    AddDbKeeps(c, st, ds[0]);
    if k == 0 {
      PourHolds(c, ds[0]);
      AddDbsKeeps(c, AddDb(c, st, ds[0]), ds[1..], ds[0].id);
    } else {
      AddDbsHas(c, AddDb(c, st, ds[0]), ds[1..], k - 1);
    }
  }

  lemma AddDbsIs(c: Config, ds: seq<Database>)
    requires DistinctDbs(ds) && forall d :: d in ds ==> DbOk(c, d)
    ensures
      var r := AddDbs(c, START, ds);
      && r.dbs.Keys == (set d | d in ds && d.items != [] :: d.id as nat)
      && (forall d :: d in ds && d.items != [] ==> Holds(c, d, r.dbs[d.id]))
  {
    hide DbOk, AddDbs, Holds;
    var r := AddDbs(c, START, ds);
    forall d | d in ds && d.items != [] ensures d.id in r.dbs && Holds(c, d, r.dbs[d.id]) {
      var k :| 0 <= k < |ds| && ds[k] == d;
      AddDbsHas(c, START, ds, k);
    }
    forall n: nat | n in r.dbs ensures n in set d | d in ds && d.items != [] :: d.id as nat {
      if forall d :: d in ds && d.items != [] ==> d.id != n { AddDbsKeeps(c, START, ds, n); }
    }
  }

  lemma {:induction false} AuxLoop(c: Config, aux: seq<(Bytes, Bytes)>, st: State, rest: Bytes)
    requires LzfInverts(c.env.z.lzf) && forall a :: a in aux ==> AuxFits(a)
    ensures Loop(c, In(SaveAux(c.env.z, aux) + rest, false), st) == Loop(c, In(rest, false), st)
    decreases |aux|
  {
    hide Loop, SaveString, LoadString, LoadLen, LoadTime, LoadRecord;
    if aux == [] {
      assert SaveAux(c.env.z, aux) + rest == rest;
    } else {
      assert AuxFits(aux[0]);
      var more := SaveAux(c.env.z, aux[1..]) + rest;
      var t := SaveString(c.env.z, aux[0].0) + (SaveString(c.env.z, aux[0].1) + more);
      assert SaveAux(c.env.z, aux) + rest == [OP_AUX] + t;
      ReadOp(OP_AUX, t);
      StringRoundTrip(c.env.z, aux[0].0, SaveString(c.env.z, aux[0].1) + more);
      StringRoundTrip(c.env.z, aux[0].1, more);
      LoopStep(c, In(SaveAux(c.env.z, aux) + rest, false), st);
      AuxLoop(c, aux[1..], st, rest);
    }
  }

  // ------------------------------------------------------------------- the file

  ghost predicate FileOk(c: Config, f: File) {
    (forall a :: a in f.aux ==> AuxFits(a)) && DistinctDbs(f.dbs) && (forall d :: d in f.dbs ==> DbOk(c, d))
  }

  lemma FileIsFit(c: Config, f: File)
    requires FileOk(c, f)
    ensures FileFits(c.env, f)
  {
    forall d | d in f.dbs ensures DbFits(c.env, d) { DbIsFit(c, d); }
  }

  lemma BodyLoop(c: Config, f: File, tail: Bytes)
    requires LzfInverts(c.env.z.lzf) && FileOk(c, f)
    ensures FileFits(c.env, f)
      && Loop(c, In(SaveAux(c.env.z, f.aux) + (SaveDbs(c.env, f.dbs) + ([OP_EOF] + tail)), false), START)
         == Some((AddDbs(c, START, f.dbs), In(tail, false)))
  {
    hide SaveAux, SaveDbs, AddDbs, DbOk, DbFits, LoadRecord, LoadTime, LoadLen, LoadString, AuxFits;
    FileIsFit(c, f);
    AuxLoop(c, f.aux, START, SaveDbs(c.env, f.dbs) + ([OP_EOF] + tail));
    DbsLoop(c, f.dbs, START, [OP_EOF] + tail);
    ReadOp(OP_EOF, tail);
  }

  lemma MagicReads(tail: Bytes)
    ensures Read(In(Magic(RDB_VERSION) + tail, false), 9) == (Some(Magic(RDB_VERSION)), In(tail, false))
    ensures Magic(RDB_VERSION)[..5] == [82, 69, 68, 73, 83] && Version(Magic(RDB_VERSION)[5..]) == RDB_VERSION
  {
    ReadBack(Magic(RDB_VERSION), tail);
    var v: Bytes := [48, 48, 49, 50];
    assert Magic(RDB_VERSION)[5..] == v;
    assert v[1..] == [48, 49, 50] && v[1..][1..] == [49, 50] && v[1..][1..][1..] == [50] && v[1..][1..][1..][1..] == [];
  }

  lemma SumReads(n: uint64, body: Bytes)
    ensures
      var sum := LittleEndian(n, 8);
      && Read(In(sum, false), 8) == (Some(sum), In([], false)) && FromLittleEndian(sum) == n
      && (body + sum)[..|body + sum| - |sum|] == body
  {
    var sum := LittleEndian(n, 8);
    Powers();
    LittleEndianInverts(n, 8);
    assert sum + [] == sum;
    ReadBack(sum, []);
  }

  lemma BodySplits(e: Env, f: File, tail: Bytes)
    requires FileFits(e, f)
    ensures SaveBody(e, f) + tail
      == Magic(RDB_VERSION) + (SaveAux(e.z, f.aux) + (SaveDbs(e, f.dbs) + ([OP_EOF] + tail)))
  {
    hide SaveAux, SaveDbs, Magic, DbFits, AuxFits;
  }

  /** Loading what was saved yields exactly the saved databases. */
  lemma FileParses(c: Config, f: File, crc: Option<Bytes -> uint64>)
    requires LzfInverts(c.env.z.lzf) && FileOk(c, f) && (crc.Some? && c.crc.Some? ==> crc == c.crc)
    ensures FileFits(c.env, f) && LoadFile(c, SaveFile(c.env, f, crc)) == Some(AddDbs(c, START, f.dbs).dbs)
  {
    hide SaveAux, SaveDbs, AddDbs, Loop, Magic, Version, DbOk, DbFits, AuxFits, SaveBody, LittleEndian,
      FromLittleEndian, Read, DistinctDbs;
    FileIsFit(c, f);
    var body := SaveBody(c.env, f);
    var n: uint64 := if crc.Some? then crc.value(body) else 0;
    var sum := LittleEndian(n, 8);
    BodyLoop(c, f, sum);
    BodySplits(c.env, f, sum);
    MagicReads(SaveAux(c.env.z, f.aux) + (SaveDbs(c.env, f.dbs) + ([OP_EOF] + sum)));
    SumReads(n, body);
  }

  /** The database holds every saved key with its value, expire time and usage (an idle time as the
      long long it is kept in), and nothing else. */
  ghost predicate RestoredDb(d: Database, m: map<Bytes, Entry>) {
    && m.Keys == (set it | it in d.items :: it.key)
    && forall it :: it in d.items ==>
         && Represents(it.value, m[it.key].o)
         && m[it.key].attrs.expire == it.expire
         && m[it.key].attrs.freq == (if it.usage.Freq? then it.usage.counter as int else -1)
         && m[it.key].attrs.idle == (if it.usage.Idle? then AsLongLong(it.usage.seconds) else -1)
  }

  ghost predicate Restored(f: File, dbs: map<nat, map<Bytes, Entry>>) {
    && dbs.Keys == (set d | d in f.dbs && d.items != [] :: d.id as nat)
    && forall d :: d in f.dbs && d.items != [] ==> RestoredDb(d, dbs[d.id])
  }

  /** No field of a hash expires at time 0, which the format cannot tell from never. */
  ghost predicate ExpiriesArePositive(f: File) {
    forall d, it :: d in f.dbs && it in d.items ==> ExpiryIsPositive(it.value)
  }

  lemma HeldIsRestored(c: Config, d: Database, m: map<Bytes, Entry>)
    requires Holds(c, d, m)
    ensures RestoredDb(d, m) <==> forall it :: it in d.items ==> ExpiryIsPositive(it.value)
  {
    hide Fits, Represents, ObjectOf, ExpiryIsPositive;
    forall it | it in d.items ensures Represents(it.value, m[it.key].o) <==> ExpiryIsPositive(it.value) {
      ObjectMeans(c.env, it.value);
    }
  }

  lemma AddedIsRestored(c: Config, f: File)
    requires FileOk(c, f)
    ensures Restored(f, AddDbs(c, START, f.dbs).dbs) <==> ExpiriesArePositive(f)
  {
    AddDbsIs(c, f.dbs);
    hide AddDbs, DbOk, Holds, RestoredDb, ExpiryIsPositive;
    var dbs: map<nat, map<Bytes, Entry>> := AddDbs(c, START, f.dbs).dbs;
    forall d: Database | d in f.dbs && d.items != []
      ensures RestoredDb(d, dbs[d.id]) <==> forall it :: it in d.items ==> ExpiryIsPositive(it.value)
    {
      HeldIsRestored(c, d, dbs[d.id]);
    }
  }

  /** Whole-file round trip: provided nothing has expired, what rdbSaveRio writes, checksummed or
      not, is loaded, and yields the same databases with the same keys, values, expire times and
      usage if and only if no hash field expires at time 0. */
  lemma WholeFileRoundTrip(c: Config, f: File, crc: Option<Bytes -> uint64>)
    requires LzfInverts(c.env.z.lzf) && FileOk(c, f) && (crc.Some? && c.crc.Some? ==> crc == c.crc)
    ensures FileFits(c.env, f)
    ensures var r := LoadFile(c, SaveFile(c.env, f, crc)); r.Some? && (Restored(f, r.value) <==> ExpiriesArePositive(f))
  {
    FileParses(c, f, crc);
    AddedIsRestored(c, f);
  }
}
