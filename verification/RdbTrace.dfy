/** What the bytes of an RDB file say, opcode by opcode, whatever state the loader is in.  Against
    this reading, on any input at all: which record an entry comes from, which database it goes
    to, and which attributes it has. */
module RdbTrace {
  import opened Wrappers
  import opened RdbBytes
  import opened RdbStrings
  import opened RdbStream
  import opened RdbObjects
  import opened RdbFile

  /** One opcode with its operands; a record of an empty collection has no object. */
  datatype Op =
    | Expire(at: int64)
    | SetFreq(counter: int)
    | SetIdle(seconds: int)
    | Select(id: nat)
    | Record(key: Bytes, content: Option<Object>)
    | Note
    | Finish
    | Broken

  function OpAt(e: Env, i: In): (r: (Op, In))
    ensures !r.0.Broken? ==> |r.1.rest| < |i.rest|
  {
    var (b, i1) := Read(i, 1);
    if b.None? then (Broken, i1)
    else
      var op := b.value[0];
      if op == OP_EXPIRETIME then
        var (t, i2) := Read(i1, 4);
        (if t.None? then Broken else Expire(Seconds(t.value)), i2)
      else if op == OP_EXPIRETIME_MS then
        var (t, i2) := LoadTime(i1);
        (if i2.bad then Broken else Expire(t), i2)
      else if op == OP_FREQ then
        var (f, i2) := Read(i1, 1);
        (if f.None? then Broken else SetFreq(f.value[0]), i2)
      else if op == OP_IDLE then
        var (n, i2) := LoadLen(i1);
        (if n == LENERR then Broken else SetIdle(AsLongLong(n)), i2)
      else if op == OP_SELECTDB then
        var (n, i2) := LoadLen(i1);
        (if n == LENERR then Broken else Select(n), i2)
      else if op == OP_RESIZEDB then
        var (n, i2) := LoadLen(i1);
        var (m, i3) := LoadLen(i2);
        (if n == LENERR || m == LENERR then Broken else Note, i3)
      else if op == OP_SLOT_INFO then
        var (a, i2) := LoadLen(i1);
        var (n, i3) := LoadLen(i2);
        var (m, i4) := LoadLen(i3);
        (if a == LENERR || n == LENERR || m == LENERR then Broken else Note, i4)
      else if op == OP_AUX then
        var (k, i2) := LoadString(e.z, i1);
        if k.None? then (Broken, i2)
        else
          var (v, i3) := LoadString(e.z, i2);
          (if v.None? then Broken else Note, i3)
      else if op == OP_EOF then (Finish, i1)
      else if op > OP_SLOT_INFO then (Broken, i1)
      else RecordAt(e, op, i1)
  }

  function RecordAt(e: Env, kind: nat, i: In): (r: (Op, In))
    ensures |r.1.rest| <= |i.rest|
  {
    var (key, i1) := LoadString(e.z, i);
    if key.None? then (Broken, i1)
    else
      match LoadObject(e, kind, i1)
      case (Fail, i2) => (Broken, i2)
      case (EmptyKey, i2) => (Record(key.value, None), i2)
      case (Got(o), i2) => (Record(key.value, Some(o)), i2)
  }

  /** The opcodes up to the end of the file, or up to where it cannot be read on. */
  function Ops(e: Env, i: In): seq<Op>
    decreases |i.rest|
  {
    var (op, i1) := OpAt(e, i);
    if op.Broken? || op.Finish? then [] else [op] + Ops(e, i1)
  }

  /** Where the end of the file is, if there is one. */
  function End(e: Env, i: In): Option<In>
    decreases |i.rest|
  {
    var (op, i1) := OpAt(e, i);
    if op.Broken? then None else if op.Finish? then Some(i1) else End(e, i1)
  }

  // ------------------------------------------------- what a record is to be given

  /** The attributes given since the last record: the last of each kind counts. */
  function Since(ops: seq<Op>): Attrs {
    if ops == [] then NO_ATTRS
    else
      var before := Since(ops[..|ops| - 1]);
      match ops[|ops| - 1]
      case Expire(t) => before.(expire := t)
      case SetFreq(f) => before.(freq := f)
      case SetIdle(n) => before.(idle := n)
      case Record(_, _) => NO_ATTRS
      case _ => before
  }

  /** The database last selected. */
  function Selected(ops: seq<Op>): nat {
    if ops == [] then 0
    else if ops[|ops| - 1].Select? then ops[|ops| - 1].id
    else Selected(ops[..|ops| - 1])
  }

  /** Record k adds its key to database n: it is not empty and has not expired. */
  predicate Adds(c: Config, ops: seq<Op>, k: nat, n: nat, key: Bytes)
    requires k < |ops|
  {
    && ops[k].Record? && ops[k].key == key && ops[k].content.Some?
    && Selected(ops[..k]) == n && !Expired(c, Since(ops[..k]).expire)
  }

  /** What the last record that adds the key gives it. */
  function Latest(c: Config, ops: seq<Op>, n: nat, key: Bytes): Option<Entry> {
    if ops == [] then None
    else
      var k := |ops| - 1;
      if Adds(c, ops, k, n, key) then Some(Entry(ops[k].content.value, Since(ops[..k])))
      else Latest(c, ops[..k], n, key)
  }

  function Find(dbs: map<nat, map<Bytes, Entry>>, n: nat, key: Bytes): Option<Entry> {
    if n in dbs && key in dbs[n] then Some(dbs[n][key]) else None
  }

  /** And if there is none, what was there before stays. */
  function Found(c: Config, was: map<nat, map<Bytes, Entry>>, ops: seq<Op>, n: nat, key: Bytes): Option<Entry> {
    var latest := Latest(c, ops, n, key);
    if latest.Some? then latest else Find(was, n, key)
  }

  // ------------------------------------------------------------ the loader follows

  /** What an opcode that is no record does to the loader. */
  function Noted(st: State, op: Op): State {
    match op
    case Expire(t) => st.(attrs := st.attrs.(expire := t))
    case SetFreq(f) => st.(attrs := st.attrs.(freq := f))
    case SetIdle(n) => st.(attrs := st.attrs.(idle := n))
    case Select(n) => st.(db := n)
    case _ => st
  }

  /** A round that is not about a record. */
  lemma StepNotes(c: Config, i: In, st: State)
    requires Read(i, 1).0.Some? ==> Read(i, 1).0.value[0] >= OP_SLOT_INFO
    ensures var (op, i1) := OpAt(c.env, i);
      && !op.Record?
      && match Step(c, i, st)
         case Error => true
         case Done(st1, j) => op.Finish? && st1 == st && j == i1
         case Continue(st1, j) => !op.Finish? && !op.Broken? && st1 == Noted(st, op) && j == i1
  {
    hide Read, LoadLen, LoadString, LoadTime, LoadRecord, LoadObject, Seconds, RecordAt, AsLongLong;
  }

  lemma RecordReads(c: Config, kind: nat, i: In, st: State)
    requires LoadRecord(c, kind, i, st).Continue?
    ensures RecordAt(c.env, kind, i).0.Record? && LoadRecord(c, kind, i, st).i == RecordAt(c.env, kind, i).1
  {
    hide LoadString, LoadObject;
  }

  /** A round of the loop reads the opcode that is there, whatever state the loader is in. */
  lemma StepReads(c: Config, i: In, st: State)
    ensures var (op, i1) := OpAt(c.env, i);
      match Step(c, i, st)
      case Error => true
      case Done(st1, j) => op.Finish? && st1 == st && j == i1
      case Continue(_, j) => !op.Finish? && !op.Broken? && j == i1
  {
    hide Read, LoadRecord, RecordAt, Noted;
    var (b, i1) := Read(i, 1);
    if b.Some? && b.value[0] < OP_SLOT_INFO {
      hide LoadLen, LoadString, LoadTime, Seconds, AsLongLong;
      if LoadRecord(c, b.value[0], i1, st).Continue? { RecordReads(c, b.value[0], i1, st); }
    } else {
      hide Step, OpAt;
      StepNotes(c, i, st);
    }
  }

  /** A load that comes to an end comes to the end that the bytes alone have. */
  lemma {:induction false} EndFollows(c: Config, i: In, st: State)
    requires Loop(c, i, st).Some?
    ensures End(c.env, i) == Some(Loop(c, i, st).value.1)
    decreases |i.rest|
  {
    hide Step, OpAt;
    StepReads(c, i, st);
    var r := Step(c, i, st);
    if r.Continue? { EndFollows(c, r.i, r.st); }
  }

  /** The loader's state after the opcodes read so far; was is what the databases held before. */
  ghost predicate After(c: Config, was: map<nat, map<Bytes, Entry>>, ops: seq<Op>, st: State) {
    && st.attrs == Since(ops) && st.db == Selected(ops)
    && forall n: nat, key: Bytes :: Find(st.dbs, n, key) == Found(c, was, ops, n, key)
  }

  lemma Behind(c: Config, ops: seq<Op>, op: Op)
    ensures var all := ops + [op]; all[..|all| - 1] == ops && all[|all| - 1] == op
  {
  }

  lemma NotedAfter(c: Config, was: map<nat, map<Bytes, Entry>>, ops: seq<Op>, op: Op, st: State)
    requires After(c, was, ops, st) && !op.Record?
    ensures After(c, was, ops + [op], Noted(st, op))
  {
    Behind(c, ops, op);
    hide Expired, Find;
    var all, st1 := ops + [op], Noted(st, op);
    forall n: nat, key: Bytes ensures Find(st1.dbs, n, key) == Found(c, was, all, n, key) {
      assert Find(st.dbs, n, key) == Found(c, was, ops, n, key);
    }
  }

  lemma RecordAfter(c: Config, was: map<nat, map<Bytes, Entry>>, ops: seq<Op>, kind: nat, i: In, st: State)
    requires After(c, was, ops, st) && LoadRecord(c, kind, i, st).Continue?
    ensures After(c, was, ops + [RecordAt(c.env, kind, i).0], LoadRecord(c, kind, i, st).st)
  {
    hide LoadString, LoadObject;
    var op := RecordAt(c.env, kind, i).0;
    var all, st1 := ops + [op], LoadRecord(c, kind, i, st).st;
    Behind(c, ops, op);
    forall n: nat, key: Bytes ensures Find(st1.dbs, n, key) == Found(c, was, all, n, key) {
      assert Find(st.dbs, n, key) == Found(c, was, ops, n, key);
    }
  }

  /** And takes it for what it is. */
  lemma StepFollows(c: Config, was: map<nat, map<Bytes, Entry>>, ops: seq<Op>, i: In, st: State)
    requires After(c, was, ops, st) && Step(c, i, st).Continue?
    ensures After(c, was, ops + [OpAt(c.env, i).0], Step(c, i, st).st)
  {
    hide Read, LoadRecord, RecordAt, After, Noted;
    var (b, i1) := Read(i, 1);
    if b.Some? && b.value[0] < OP_SLOT_INFO {
      hide LoadLen, LoadString, LoadTime, Seconds, AsLongLong;
      RecordAfter(c, was, ops, b.value[0], i1, st);
    } else {
      hide Step, OpAt;
      StepNotes(c, i, st);
      NotedAfter(c, was, ops, OpAt(c.env, i).0, st);
    }
  }

  lemma {:induction false} LoopFollows(c: Config, was: map<nat, map<Bytes, Entry>>, ops: seq<Op>, i: In, st: State)
    requires After(c, was, ops, st) && Loop(c, i, st).Some?
    ensures After(c, was, ops + Ops(c.env, i), Loop(c, i, st).value.0)
    decreases |i.rest|
  {
    hide Step, OpAt, After;
    StepReads(c, i, st);
    var r := Step(c, i, st);
    if r.Continue? {
      var op := OpAt(c.env, i).0;
      StepFollows(c, was, ops, i, st);
      LoopFollows(c, was, ops + [op], r.i, r.st);
      assert ops + [op] + Ops(c.env, r.i) == ops + Ops(c.env, i);
    } else {
      assert ops + Ops(c.env, i) == ops;
    }
  }

  lemma StartAfter(c: Config, was: map<nat, map<Bytes, Entry>>)
    ensures After(c, was, [], State(was, 0, NO_ATTRS))
  {
  }

  /** On any file that loads, into databases that may hold something already: what is found under a
      key is what the last record of this key gave that was selected for this database, was not
      empty and had not expired, or else what was there before; and its expire time, frequency and
      idle time are the last ones given between the record before, skipped or not, and this one. */
  lemma AttributesDoNotLeak(c: Config, file: Bytes, was: map<nat, map<Bytes, Entry>>, n: nat, key: Bytes)
    requires LoadInto(c, file, was).Some?
    ensures |file| >= 9
    ensures Find(LoadInto(c, file, was).value, n, key) == Found(c, was, Ops(c.env, In(file[9..], false)), n, key)
  {
    hide Loop, Ops, Latest, Find, FromLittleEndian, Version;
    var i := In(file[9..], false);
    StartAfter(c, was);
    LoopFollows(c, was, [], i, State(was, 0, NO_ATTRS));
    assert [] + Ops(c.env, i) == Ops(c.env, i);
  }

  /** So every entry comes from a record of its own key, with nothing that was said for another. */
  lemma {:induction false} EntriesHaveRecords(c: Config, ops: seq<Op>, n: nat, key: Bytes) returns (k: nat)
    requires Latest(c, ops, n, key).Some?
    ensures k < |ops| && Adds(c, ops, k, n, key)
    ensures Latest(c, ops, n, key).value == Entry(ops[k].content.value, Since(ops[..k]))
    ensures forall j :: k < j < |ops| ==> !Adds(c, ops, j, n, key)
    decreases |ops|
  {
    k := |ops| - 1;
    if !Adds(c, ops, k, n, key) {
      var less := ops[..k];
      var m := EntriesHaveRecords(c, less, n, key);
      assert less[..m] == ops[..m];
      forall j | m < j < |ops| ensures !Adds(c, ops, j, n, key) {
        if j < k { assert !Adds(c, less, j, n, key) && less[j] == ops[j] && less[..j] == ops[..j]; }
      }
      k := m;
    }
  }
}
