/** Which bytes load as a collection, and as what: what can be read from them element by element, and
    the checks that the elements have to pass, on any input at all. */
module RdbAccepts {
  import opened Wrappers
  import opened RdbBytes
  import opened RdbStrings
  import opened RdbStream
  import opened RdbObjects

  // -------------------------------------------------------------------- strings

  /** A compressed string has the length that is announced for it, or it does not load. */
  lemma LzfHasItsLength(i: In, z: Lzf)
    ensures
      var (clen, i1) := LoadLen(i);
      var (len, i2) := LoadLen(i1);
      LoadLzf(i, z).0.Some? <==>
        && clen != LENERR && len != LENERR && !i2.bad && clen <= |i2.rest|
        && z.decompress(i2.rest[..clen], len).Some? && |z.decompress(i2.rest[..clen], len).value| == len
  {
    hide LoadLen;
  }

  /** n strings one after the other. */
  function Strings(z: Codec, i: In, n: nat): (Option<seq<Bytes>>, In)
    decreases n
  {
    if n == 0 then (Some([]), i)
    else
      var (s, i1) := LoadString(z, i);
      if s.None? then (None, i1)
      else
        var (ss, i2) := Strings(z, i1, n - 1);
        (if ss.None? then None else Some([s.value] + ss.value), i2)
  }

  // ----------------------------------------------------------------------- sets

  lemma DistinctCons(m: Bytes, ms: seq<Bytes>)
    ensures Distinct([m] + ms) <==> Distinct(ms) && m !in ms
    ensures Members([m] + ms) == {m} + Members(ms)
  {
    if Distinct([m] + ms) {
      forall i, j | 0 <= i < j < |ms| ensures ms[i] != ms[j] { assert ([m] + ms)[i + 1] != ([m] + ms)[j + 1]; }
      forall i | 0 <= i < |ms| ensures ms[i] != m { assert ([m] + ms)[0] != ([m] + ms)[i + 1]; }
    }
  }

  ghost predicate AllNew(ms: seq<Bytes>, acc: set<Bytes>) {
    Distinct(ms) && forall m :: m in ms ==> m !in acc
  }

  lemma AllNewCons(m: Bytes, ms: seq<Bytes>, acc: set<Bytes>)
    ensures AllNew([m] + ms, acc) <==> m !in acc && AllNew(ms, acc + {m})
  {
    DistinctCons(m, ms);
    hide Distinct, Members;
    assert forall x :: x in [m] + ms <==> x == m || x in ms;
  }

  lemma NoneNew(acc: set<Bytes>)
    ensures AllNew([], acc) && acc + Members([]) == acc
  {
  }

  /** A set loads exactly if its members can be read and no two are the same. */
  lemma {:induction false} MembersExactly(z: Codec, i: In, n: nat, acc: set<Bytes>)
    ensures
      var (raw, j) := Strings(z, i, n);
      var (r, k) := LoadMembers(z, i, n, acc);
      && (r.Some? <==> raw.Some? && AllNew(raw.value, acc))
      && (r.Some? ==> r.value == acc + Members(raw.value) && k == j)
    decreases n
  {
    hide LoadString, AllNew, Members;
    if n == 0 {
      NoneNew(acc);
    } else {
      var (m, i1) := LoadString(z, i);
      if m.Some? {
        var (ss, i2) := Strings(z, i1, n - 1);
        if ss.Some? {
          AllNewCons(m.value, ss.value, acc);
          DistinctCons(m.value, ss.value);
          assert acc + {m.value} + Members(ss.value) == acc + ({m.value} + Members(ss.value));
        }
        MembersExactly(z, i1, n - 1, acc + {m.value});
      }
    }
  }

  // ---------------------------------------------------------------- sorted sets

  /** n strings, each followed by the eight bytes of a score. */
  function Scored(z: Codec, i: In, n: nat): (Option<seq<(Bytes, nat)>>, In)
    decreases n
  {
    if n == 0 then (Some([]), i)
    else
      var (m, i1) := LoadString(z, i);
      if m.None? then (None, i1)
      else
        var (s, i2) := Read(i1, 8);
        if s.None? then (None, i2)
        else
          var (es, i3) := Scored(z, i2, n - 1);
          (if es.None? then None else Some([(m.value, FromLittleEndian(s.value))] + es.value), i3)
  }

  function Names<T>(es: seq<(Bytes, T)>): (r: seq<Bytes>)
    ensures |r| == |es| && forall k :: 0 <= k < |es| ==> r[k] == es[k].0
  {
    seq(|es|, k requires 0 <= k < |es| => es[k].0)
  }

  lemma NamesCons<T>(e: (Bytes, T), es: seq<(Bytes, T)>)
    ensures Names([e] + es) == [e.0] + Names(es)
  {
  }

  /** The map is acc with the pairs added. */
  ghost predicate Extends<T>(r: map<Bytes, T>, acc: map<Bytes, T>, es: seq<(Bytes, T)>) {
    && r.Keys == acc.Keys + Members(Names(es))
    && (forall m :: m in acc && m !in Names(es) ==> m in r && r[m] == acc[m])
    && (forall e :: e in es ==> e.0 in r && r[e.0] == e.1)
  }

  lemma ExtendsCons<T>(r: map<Bytes, T>, acc: map<Bytes, T>, e: (Bytes, T), es: seq<(Bytes, T)>)
    requires Extends(r, acc[e.0 := e.1], es) && e.0 !in Names(es)
    ensures Extends(r, acc, [e] + es)
  {
    NamesCons(e, es);
    DistinctCons(e.0, Names(es));
  }

  lemma ExtendsNone<T>(acc: map<Bytes, T>)
    ensures Extends(acc, acc, [])
  {
    assert Names<T>([]) == [];
  }

  ghost predicate Numbers(es: seq<(Bytes, nat)>) {
    forall e :: e in es ==> !IsNan(e.1)
  }

  lemma NumbersCons(e: (Bytes, nat), es: seq<(Bytes, nat)>)
    ensures Numbers([e] + es) <==> !IsNan(e.1) && Numbers(es)
  {
    hide IsNan;
    assert ([e] + es)[0] == e;
    assert forall x :: x in [e] + es <==> x == e || x in es;
  }

  lemma NoNumbers()
    ensures Numbers([])
  {
  }

  lemma NoNames<T>(acc: set<Bytes>)
    ensures Names<T>([]) == [] && AllNew(Names<T>([]), acc)
  {
  }

  /** A sorted set loads exactly if its members and scores can be read, no score is NaN and no two
      members are the same. */
  lemma {:induction false} ElemsExactly(z: Codec, i: In, n: nat, acc: map<Bytes, nat>)
    ensures
      var (raw, j) := Scored(z, i, n);
      var (r, k) := LoadElems(z, i, n, acc);
      && (r.Some? <==> raw.Some? && Numbers(raw.value) && AllNew(Names(raw.value), acc.Keys))
      && (r.Some? ==> Extends(r.value, acc, raw.value) && k == j)
    decreases n
  {
    hide LoadString, AllNew, Members, Names, Extends, FromLittleEndian, IsNan, Numbers;
    if n == 0 {
      NoNames<nat>(acc.Keys);
      ExtendsNone(acc);
      NoNumbers();
    } else {
      var (m, i1) := LoadString(z, i);
      var (s, i2) := Read(i1, 8);
      if m.Some? && s.Some? {
        var e := (m.value, FromLittleEndian(s.value));
        var acc' := acc[e.0 := e.1];
        assert acc'.Keys == acc.Keys + {e.0};
        ElemsExactly(z, i2, n - 1, acc');
        var (es, i3) := Scored(z, i2, n - 1);
        if es.Some? {
          AllNewCons(e.0, Names(es.value), acc.Keys);
          NamesCons(e, es.value);
          NumbersCons(e, es.value);
          var r := LoadElems(z, i2, n - 1, acc').0;
          if r.Some? {
            NewIsNotThere(Names(es.value), acc'.Keys, e.0);
            ExtendsCons(r.value, acc, e, es.value);
          }
        }
      }
    }
  }

  lemma NewIsNotThere(ms: seq<Bytes>, acc: set<Bytes>, m: Bytes)
    requires AllNew(ms, acc) && m in acc
    ensures m !in ms
  {
  }

  // ---------------------------------------------------------------------- lists

  /** n numbers, each followed by a string. */
  function Numbered(z: Codec, i: In, n: nat): (Option<seq<(uint64, Bytes)>>, In)
    decreases n
  {
    if n == 0 then (Some([]), i)
    else
      var (c, i1) := LoadLen(i);
      var (d, i2) := LoadString(z, i1);
      if d.None? then (None, i2)
      else
        var (ns, i3) := Numbered(z, i2, n - 1);
        (if ns.None? then None else Some([(c, d.value)] + ns.value), i3)
  }

  /** A node is plain or packed and not empty, and a packed one is sound. */
  predicate NodeSound(e: Env, n: (uint64, Bytes)) {
    && (n.0 == CONTAINER_PLAIN || n.0 == CONTAINER_PACKED) && n.1 != []
    && (n.0 == CONTAINER_PACKED ==> e.packOk(TYPE_LIST_QUICKLIST_2, n.1))
  }

  ghost predicate NodesSound(e: Env, ns: seq<(uint64, Bytes)>) {
    forall n :: n in ns ==> NodeSound(e, n)
  }

  /** The nodes without the packed ones that hold nothing. */
  function Filled(e: Env, ns: seq<(uint64, Bytes)>): seq<(nat, Bytes)> {
    if ns == [] then []
    else
      (if ns[0].0 == CONTAINER_PACKED && e.packCount(TYPE_LIST_QUICKLIST_2, ns[0].1) == 0 then []
       else [(ns[0].0 as nat, ns[0].1)])
      + Filled(e, ns[1..])
  }

  lemma NodesCons(e: Env, n: (uint64, Bytes), ns: seq<(uint64, Bytes)>)
    ensures NodesSound(e, [n] + ns) <==> NodeSound(e, n) && NodesSound(e, ns)
    ensures Filled(e, [n] + ns)
      == (if n.0 == CONTAINER_PACKED && e.packCount(TYPE_LIST_QUICKLIST_2, n.1) == 0 then [] else [(n.0 as nat, n.1)])
         + Filled(e, ns)
  {
    hide NodeSound;
    assert ([n] + ns)[0] == n && ([n] + ns)[1..] == ns;
    assert forall x :: x in [n] + ns <==> x == n || x in ns;
  }

  lemma NoNodes(e: Env, acc: seq<(nat, Bytes)>)
    ensures NodesSound(e, []) && acc + Filled(e, []) == acc
  {
  }

  /** A list loads exactly if its nodes can be read and are sound; what it holds are the nodes in
      their order, except packed ones that hold nothing. */
  lemma {:induction false} NodesExactly(e: Env, i: In, n: nat, acc: seq<(nat, Bytes)>)
    ensures
      var (raw, j) := Numbered(e.z, i, n);
      var (r, k) := LoadNodes(e, i, n, acc);
      && (r.Some? <==> raw.Some? && NodesSound(e, raw.value))
      && (r.Some? ==> r.value == acc + Filled(e, raw.value) && k == j)
    decreases n
  {
    hide LoadString, LoadLen, NodesSound, Filled;
    if n == 0 {
      NoNodes(e, acc);
    } else {
      var (c, i1) := LoadLen(i);
      var (d, i2) := LoadString(e.z, i1);
      if d.Some? {
        var nd := (c, d.value);
        var ns := Numbered(e.z, i2, n - 1).0;
        var keep := if c == CONTAINER_PACKED && e.packCount(TYPE_LIST_QUICKLIST_2, d.value) == 0 then []
                    else [(c as nat, d.value)];
        NodesExactly(e, i2, n - 1, acc + keep);
        assert acc + [] == acc;
        if ns.Some? {
          NodesCons(e, nd, ns.value);
          assert acc + keep + Filled(e, ns.value) == acc + (keep + Filled(e, ns.value));
        }
      }
    }
  }

  // --------------------------------------------------------------------- hashes

  datatype RawField = RawField(name: Bytes, value: Bytes, ttl: uint64)

  /** n pairs of strings, each preceded by a TTL if there are any. */
  function Fields(z: Codec, i: In, n: nat, meta: bool): (Option<seq<RawField>>, In)
    decreases n
  {
    if n == 0 then (Some([]), i)
    else
      var (ttl, i1) := if meta then LoadLenByRef(i) else (Some((false, 0)), i);
      if ttl.None? then (None, i1)
      else
        var (name, i2) := LoadString(z, i1);
        if name.None? then (None, i2)
        else
          var (value, i3) := LoadString(z, i2);
          if value.None? then (None, i3)
          else
            var (fs, i4) := Fields(z, i3, n - 1, meta);
            (if fs.None? then None else Some([RawField(name.value, value.value, ttl.value.1)] + fs.value), i4)
  }

  /** The expire time of a TTL above the minimum, counted from 1, in 64 bits; 0 is none. */
  function At(ttl: uint64, min: uint64): nat {
    if ttl == 0 then 0 else (ttl as nat + min as nat - 1) % U64
  }

  ghost predicate InTime(fs: seq<RawField>, min: uint64) {
    forall f :: f in fs ==> At(f.ttl, min) <= 0xFFFF_FFFF_FFFF
  }

  /** The fields as they are kept. */
  function Timed(fs: seq<RawField>, min: uint64): (r: seq<(Bytes, (Bytes, Option<nat>))>)
    ensures |r| == |fs|
  {
    seq(|fs|, k requires 0 <= k < |fs| =>
      (fs[k].name, (fs[k].value, if At(fs[k].ttl, min) == 0 then None else Some(At(fs[k].ttl, min)))))
  }

  lemma FieldsCons(f: RawField, fs: seq<RawField>, min: uint64)
    ensures InTime([f] + fs, min) <==> At(f.ttl, min) <= 0xFFFF_FFFF_FFFF && InTime(fs, min)
    ensures Timed([f] + fs, min)
      == [(f.name, (f.value, if At(f.ttl, min) == 0 then None else Some(At(f.ttl, min))))] + Timed(fs, min)
  {
    hide At;
    assert ([f] + fs)[0] == f;
    assert forall x :: x in [f] + fs <==> x == f || x in fs;
  }

  lemma NoFields(min: uint64)
    ensures InTime([], min) && Timed([], min) == []
  {
  }

  lemma AtIs(ttl: uint64, min: uint64)
    ensures ExpireAt(ttl, min) == At(ttl, min)
  {
  }

  /** A hash loads exactly if its fields can be read, no expire time takes more than 48 bits and no
      two names are the same. */
  lemma {:induction false} FieldsExactly(z: Codec, i: In, n: nat, meta: bool, min: uint64,
                                         acc: map<Bytes, (Bytes, Option<nat>)>)
    ensures
      var (raw, j) := Fields(z, i, n, meta);
      var (r, k) := LoadFields(z, i, n, meta, min, acc);
      && (r.Some? <==> raw.Some? && InTime(raw.value, min) && AllNew(Names(Timed(raw.value, min)), acc.Keys))
      && (r.Some? ==> Extends(r.value, acc, Timed(raw.value, min)) && k == j)
    decreases n
  {
    hide LoadString, LoadLenByRef, AllNew, Members, Names, Extends, InTime, Timed, ExpireAt, At;
    if n == 0 {
      NoFields(min);
      NoNames<(Bytes, Option<nat>)>(acc.Keys);
      ExtendsNone(acc);
    } else {
      var (ttl, i1) := if meta then LoadLenByRef(i) else (Some((false, 0)), i);
      var (name, i2) := LoadString(z, i1);
      var (value, i3) := LoadString(z, i2);
      if ttl.Some? && name.Some? && value.Some? {
        AtIs(ttl.value.1, min);
        var at := At(ttl.value.1, min);
        var e := (name.value, (value.value, if at == 0 then None else Some(at)));
        FieldsStep(z, i3, n - 1, meta, min, acc, RawField(name.value, value.value, ttl.value.1), e);
        FieldsExactly(z, i3, n - 1, meta, min, acc[e.0 := e.1]);
      }
    }
  }

  /** One field more in front. */
  lemma FieldsStep(z: Codec, i: In, n: nat, meta: bool, min: uint64, acc: map<Bytes, (Bytes, Option<nat>)>,
                   f: RawField, e: (Bytes, (Bytes, Option<nat>)))
    requires e == (f.name, (f.value, if At(f.ttl, min) == 0 then None else Some(At(f.ttl, min))))
    ensures
      var acc', fs := acc[e.0 := e.1], Fields(z, i, n, meta).0;
      var r := LoadFields(z, i, n, meta, min, acc').0;
      fs.Some? ==>
        && (InTime([f] + fs.value, min) <==> At(f.ttl, min) <= 0xFFFF_FFFF_FFFF && InTime(fs.value, min))
        && (AllNew(Names(Timed([f] + fs.value, min)), acc.Keys) <==>
              e.0 !in acc && AllNew(Names(Timed(fs.value, min)), acc'.Keys))
        && (r.Some? && AllNew(Names(Timed(fs.value, min)), acc'.Keys) &&
            Extends(r.value, acc', Timed(fs.value, min)) ==>
              Extends(r.value, acc, Timed([f] + fs.value, min)))
  {
    hide LoadFields, Fields, AllNew, Members, Names, Extends, InTime, Timed, At;
    var acc', fs := acc[e.0 := e.1], Fields(z, i, n, meta).0;
    var r := LoadFields(z, i, n, meta, min, acc').0;
    if fs.Some? {
      FieldsCons(f, fs.value, min);
      NamesCons(e, Timed(fs.value, min));
      AllNewCons(e.0, Names(Timed(fs.value, min)), acc.Keys);
      assert acc'.Keys == acc.Keys + {e.0};
      if r.Some? && AllNew(Names(Timed(fs.value, min)), acc'.Keys) && Extends(r.value, acc', Timed(fs.value, min)) {
        NewIsNotThere(Names(Timed(fs.value, min)), acc'.Keys, e.0);
        ExtendsCons(r.value, acc, e, Timed(fs.value, min));
      }
    }
  }

  // ---------------------------------------------------------------- stream packs

  /** n pairs of strings. */
  function Pairs(z: Codec, i: In, n: nat): (Option<seq<(Bytes, Bytes)>>, In)
    decreases n
  {
    if n == 0 then (Some([]), i)
    else
      var (key, i1) := LoadString(z, i);
      if key.None? then (None, i1)
      else
        var (lp, i2) := LoadString(z, i1);
        if lp.None? then (None, i2)
        else
          var (ps, i3) := Pairs(z, i2, n - 1);
          (if ps.None? then None else Some([(key.value, lp.value)] + ps.value), i3)
  }

  /** The key is a stream ID of 16 bytes, and the listpack is sound and not empty. */
  predicate PackSound(e: Env, p: (Bytes, Bytes)) {
    |p.0| == 16 && e.packOk(TYPE_STREAM_LISTPACKS_3, p.1) && e.packCount(TYPE_STREAM_LISTPACKS_3, p.1) != 0
  }

  ghost predicate PacksSound(e: Env, ps: seq<(Bytes, Bytes)>) {
    forall p :: p in ps ==> PackSound(e, p)
  }

  lemma PacksCons(e: Env, p: (Bytes, Bytes), ps: seq<(Bytes, Bytes)>)
    ensures PacksSound(e, [p] + ps) <==> PackSound(e, p) && PacksSound(e, ps)
  {
    hide PackSound;
    assert ([p] + ps)[0] == p;
    assert forall x :: x in [p] + ps <==> x == p || x in ps;
  }

  lemma NoPacks(e: Env)
    ensures PacksSound(e, [])
  {
  }

  /** The entries of a stream load exactly if the listpacks can be read and are sound and no two have
      the same ID. */
  lemma {:induction false} PacksExactly(e: Env, i: In, n: nat, acc: map<Bytes, Bytes>)
    ensures
      var (raw, j) := Pairs(e.z, i, n);
      var (r, k) := LoadPacks(e, i, n, acc);
      && (r.Some? <==> raw.Some? && PacksSound(e, raw.value) && AllNew(Names(raw.value), acc.Keys))
      && (r.Some? ==> Extends(r.value, acc, raw.value) && k == j)
    decreases n
  {
    hide LoadString, AllNew, Members, Names, Extends, PacksSound;
    if n == 0 {
      NoNames<Bytes>(acc.Keys);
      ExtendsNone(acc);
      NoPacks(e);
    } else {
      var (key, i1) := LoadString(e.z, i);
      var (lp, i2) := LoadString(e.z, i1);
      if key.Some? && lp.Some? {
        var p := (key.value, lp.value);
        var acc' := acc[p.0 := p.1];
        assert acc'.Keys == acc.Keys + {p.0};
        PacksExactly(e, i2, n - 1, acc');
        var ps := Pairs(e.z, i2, n - 1).0;
        if ps.Some? {
          AllNewCons(p.0, Names(ps.value), acc.Keys);
          NamesCons(p, ps.value);
          PacksCons(e, p, ps.value);
          var r := LoadPacks(e, i2, n - 1, acc').0;
          if r.Some? {
            NewIsNotThere(Names(ps.value), acc'.Keys, p.0);
            ExtendsCons(r.value, acc, p, ps.value);
          }
        }
      }
    }
  }

  // --------------------------------------------------------------- stream groups

  datatype RawEntry = RawEntry(time: int64, count: uint64)

  /** n entries of a global list: a stream ID, a time and a count. */
  function Entries(i: In, n: nat): (Option<seq<(Bytes, RawEntry)>>, In)
    decreases n
  {
    if n == 0 then (Some([]), i)
    else
      var (id, i1) := Read(i, 16);
      if id.None? then (None, i1)
      else
        var (time, i2) := LoadTime(i1);
        var (count, i3) := LoadLen(i2);
        if i3.bad then (None, i3)
        else
          var (es, i4) := Entries(i3, n - 1);
          (if es.None? then None else Some([(id.value, RawEntry(time, count))] + es.value), i4)
  }

  /** The entries are in the global list, each with a NACK of its own that nobody owns yet. */
  ghost predicate Listed(l: Loaded, l': Loaded, es: seq<(Bytes, RawEntry)>)
    requires PelOk(l)
  {
    && PelOk(l') && l'.consumers == l.consumers && l'.pel.Keys == l.pel.Keys + Members(Names(es))
    && l'.lastMs == l.lastMs && l'.lastSeq == l.lastSeq && l'.entriesRead == l.entriesRead
    && (forall id :: id in l.pel ==> l'.pel[id] == l.pel[id] && l'.nacks[l'.pel[id]] == l.nacks[l.pel[id]])
    && (forall e :: e in es ==> e.0 in l'.pel && l'.nacks[l'.pel[e.0]] == Nack(e.1.time, e.1.count, None))
  }

  lemma ListedCons(l: Loaded, l1: Loaded, l': Loaded, e: (Bytes, RawEntry), es: seq<(Bytes, RawEntry)>)
    requires PelOk(l) && PelOk(l1) && Listed(l1, l', es)
    requires l1.consumers == l.consumers && l1.pel.Keys == l.pel.Keys + {e.0}
    requires l1.lastMs == l.lastMs && l1.lastSeq == l.lastSeq && l1.entriesRead == l.entriesRead
    requires forall id :: id in l.pel ==> l1.pel[id] == l.pel[id] && l1.nacks[l1.pel[id]] == l.nacks[l.pel[id]]
    requires l1.nacks[l1.pel[e.0]] == Nack(e.1.time, e.1.count, None)
    ensures Listed(l, l', [e] + es)
  {
    NamesCons(e, es);
    DistinctCons(e.0, Names(es));
    hide Names, Members;
  }

  lemma ListedNone(l: Loaded)
    requires PelOk(l)
    ensures Listed(l, l, [])
  {
    assert Names<RawEntry>([]) == [];
  }

  /** The global list of a group loads exactly if its entries can be read and no two have the same
      ID. */
  lemma {:induction false} EntriesExactly(i: In, n: nat, l: Loaded)
    requires PelOk(l)
    ensures
      var (raw, j) := Entries(i, n);
      var (r, k) := LoadEntries(i, n, l);
      && (r.Some? <==> raw.Some? && AllNew(Names(raw.value), l.pel.Keys))
      && (r.Some? ==> Listed(l, r.value, raw.value) && k == j)
    decreases n
  {
    hide Read, LoadTime, LoadLen, AllNew, Names, Listed, PelOk, AddPending;
    if n == 0 {
      NoNames<RawEntry>(l.pel.Keys);
      ListedNone(l);
    } else {
      var (id, i1) := Read(i, 16);
      if id.Some? {
        var (time, i2) := LoadTime(i1);
        var (count, i3) := LoadLen(i2);
        if !i3.bad {
          var e := (id.value, RawEntry(time, count));
          var es := Entries(i3, n - 1).0;
          if es.Some? {
            AllNewCons(e.0, Names(es.value), l.pel.Keys);
            NamesCons(e, es.value);
          }
          if id.value !in l.pel {
            AddPendingIs(l, id.value, time, count);
            EntriesExactly(i3, n - 1, AddPending(l, id.value, time, count));
            var r := LoadEntries(i3, n - 1, AddPending(l, id.value, time, count)).0;
            if r.Some? { ListedCons(l, AddPending(l, id.value, time, count), r.value, e, es.value); }
          }
        }
      }
    }
  }

  /** n stream IDs. */
  function Taken(i: In, n: nat): (r: (Option<seq<Pending>>, In))
    decreases n
  {
    if n == 0 then (Some([]), i)
    else
      var (id, i1) := Read(i, 16);
      if id.None? then (None, i1)
      else
        var (ps, i2) := Taken(i1, n - 1);
        (if ps.None? then None else Some([Pending(id.value, 0)] + ps.value), i2)
  }

  ghost predicate Fresh(ps: seq<Pending>, acc: set<Bytes>) {
    && (forall p :: p in ps ==> p.id !in acc)
    && (forall i, j :: 0 <= i < j < |ps| ==> ps[i].id != ps[j].id)
  }

  lemma FreshCons(p: Pending, ps: seq<Pending>, acc: set<Bytes>)
    ensures Fresh([p] + ps, acc) <==> p.id !in acc && Fresh(ps, acc + {p.id})
  {
    var all := [p] + ps;
    assert all[0] == p;
    assert forall x :: x in all <==> x == p || x in ps;
    if Fresh(all, acc) {
      forall i, j | 0 <= i < j < |ps| ensures ps[i].id != ps[j].id { assert all[i + 1].id != all[j + 1].id; }
      forall i | 0 <= i < |ps| ensures ps[i].id != p.id { assert all[0].id != all[i + 1].id; }
    }
  }

  /** The entries are all in the group's global list. */
  ghost predicate Known(l: Loaded, ps: seq<Pending>) {
    forall p :: p in ps ==> p.id in l.pel
  }

  lemma KnownCons(l: Loaded, p: Pending, ps: seq<Pending>)
    ensures Known(l, [p] + ps) <==> p.id in l.pel && Known(l, ps)
  {
    assert ([p] + ps)[0] == p;
    assert forall x :: x in [p] + ps <==> x == p || x in ps;
  }

  lemma AssignIs(l: Loaded, c: Bytes, id: Bytes)
    requires PelOk(l) && c in l.consumers && id in l.pel
    ensures
      var r := Assign(l, c, id);
      && PelOk(r) && r.pel == l.pel && c in r.consumers
      && r.consumers[c].pel.Keys == l.consumers[c].pel.Keys + {id}
  {
    AssignKeeps(l, c, id);
  }

  lemma NoneTaken(l: Loaded, acc: set<Bytes>)
    ensures Known(l, []) && Fresh([], acc)
  {
  }

  /** A consumer's list loads exactly if its IDs can be read, are all in the global list, and no two
      are the same. */
  lemma {:induction false} OwnedExactly(i: In, n: nat, c: Bytes, l: Loaded)
    requires PelOk(l) && c in l.consumers
    ensures
      var (raw, j) := Taken(i, n);
      var (r, k) := LoadOwned(i, n, c, l);
      && (r.Some? <==> raw.Some? && Known(l, raw.value) && Fresh(raw.value, l.consumers[c].pel.Keys))
      && (r.Some? ==> r.value == BuildOwned(l, c, raw.value) && k == j)
    decreases n
  {
    hide Read, Known, Fresh, Assign;
    if n == 0 {
      NoneTaken(l, l.consumers[c].pel.Keys);
    } else {
      var (id, i1) := Read(i, 16);
      if id.Some? {
        var p := Pending(id.value, 0);
        var ps := Taken(i1, n - 1).0;
        if ps.Some? {
          FreshCons(p, ps.value, l.consumers[c].pel.Keys);
          KnownCons(l, p, ps.value);
          assert ([p] + ps.value)[0] == p && ([p] + ps.value)[1..] == ps.value;
        }
        if id.value in l.pel {
          AssignIs(l, c, id.value);
          OwnedExactly(i1, n - 1, c, Assign(l, c, id.value));
          if ps.Some? { SameKnown(l, Assign(l, c, id.value), ps.value); }
        }
      }
    }
  }

  lemma SameKnown(l: Loaded, l1: Loaded, ps: seq<Pending>)
    requires l1.pel == l.pel
    ensures Known(l1, ps) == Known(l, ps)
  {
  }

  lemma NoneYet(l: Loaded, name: Bytes, c: LoadedConsumer)
    requires PelOk(l) && c.pel == map[]
    ensures PelOk(l.(consumers := l.consumers[name := c]))
    ensures l.(consumers := l.consumers[name := c]).consumers[name].pel.Keys == {}
  {
  }

  /** A consumer with the stream IDs of its list. */
  function RawConsumer(z: Codec, i: In): (Option<Consumer>, In) {
    var (name, i1) := LoadString(z, i);
    if name.None? then (None, i1)
    else
      var (seen, i2) := LoadTime(i1);
      if i2.bad then (None, i2)
      else
        var (active, i3) := LoadTime(i2);
        if i3.bad then (None, i3)
        else
          var (n, i4) := LoadLen(i3);
          if n == LENERR then (None, i4)
          else
            var (ps, i5) := Taken(i4, n);
            (if ps.None? then None else Some(Consumer(name.value, seen, active, ps.value)), i5)
  }

  /** Its name is new, and its entries are in the global list, none twice. */
  ghost predicate ConsumerSound(l: Loaded, c: Consumer) {
    c.name !in l.consumers && Known(l, c.pel) && Fresh(c.pel, {})
  }

  lemma ConsumerExactly(z: Codec, i: In, l: Loaded)
    requires PelOk(l)
    ensures
      var (raw, j) := RawConsumer(z, i);
      var (r, k) := LoadConsumer(z, i, l);
      && (r.Some? <==> raw.Some? && ConsumerSound(l, raw.value))
      && (r.Some? ==> r.value == BuildConsumer(l, raw.value) && k == j)
  {
    hide LoadString, LoadTime, LoadLen, LoadOwned, Known, Fresh, Taken, PelOk, BuildOwned;
    var (name, i1) := LoadString(z, i);
    var (seen, i2) := LoadTime(i1);
    var (active, i3) := LoadTime(i2);
    var (n, i4) := LoadLen(i3);
    if name.Some? && name.value !in l.consumers {
      var c := LoadedConsumer(seen, active, map[]);
      var l1 := l.(consumers := l.consumers[name.value := c]);
      NoneYet(l, name.value, c);
      OwnedExactly(i4, n, name.value, l1);
      var ps := Taken(i4, n).0;
      if ps.Some? { SameKnown(l, l1, ps.value); }
    }
  }

  function RawConsumers(z: Codec, i: In, n: nat): (Option<seq<Consumer>>, In)
    decreases n
  {
    if n == 0 then (Some([]), i)
    else
      var (c, i1) := RawConsumer(z, i);
      if c.None? then (None, i1)
      else
        var (cs, i2) := RawConsumers(z, i1, n - 1);
        (if cs.None? then None else Some([c.value] + cs.value), i2)
  }

  ghost predicate ConsumersSound(l: Loaded, cs: seq<Consumer>) {
    && (forall c :: c in cs ==> ConsumerSound(l, c))
    && (forall i, j :: 0 <= i < j < |cs| ==> cs[i].name != cs[j].name)
  }

  lemma SoundAfter(l: Loaded, l1: Loaded, c: Consumer, d: Consumer)
    requires l1.pel == l.pel && l1.consumers.Keys == l.consumers.Keys + {c.name}
    ensures ConsumerSound(l1, d) <==> ConsumerSound(l, d) && d.name != c.name
  {
    SameKnown(l, l1, d.pel);
    hide Known, Fresh;
  }

  lemma ConsumersCons(l: Loaded, l1: Loaded, c: Consumer, cs: seq<Consumer>)
    requires ConsumerSound(l, c) && l1.pel == l.pel && l1.consumers.Keys == l.consumers.Keys + {c.name}
    ensures ConsumersSound(l, [c] + cs) <==> ConsumersSound(l1, cs)
  {
    hide ConsumerSound;
    var all := [c] + cs;
    assert all[0] == c;
    assert forall x :: x in all <==> x == c || x in cs;
    forall d | d in cs ensures ConsumerSound(l1, d) <==> ConsumerSound(l, d) && d.name != c.name {
      SoundAfter(l, l1, c, d);
    }
    if ConsumersSound(l, all) {
      forall i, j | 0 <= i < j < |cs| ensures cs[i].name != cs[j].name { assert all[i + 1].name != all[j + 1].name; }
      forall d | d in cs ensures d.name != c.name {
        var i :| 0 <= i < |cs| && cs[i] == d;
        assert all[0].name != all[i + 1].name;
      }
    }
  }

  lemma NoConsumers(l: Loaded)
    ensures ConsumersSound(l, [])
  {
  }

  lemma BuildsOne(l: Loaded, c: Consumer)
    requires PelOk(l) && ConsumerSound(l, c)
    ensures
      var l1 := BuildConsumer(l, c);
      && PelOk(l1) && l1.pel == l.pel && l1.consumers.Keys == l.consumers.Keys + {c.name}
      && (forall id :: id in l.pel ==> l1.nacks[l.pel[id]] == GivenTo(l.nacks[l.pel[id]], id in IdSet(c.pel), c.name))
      && l1.lastMs == l.lastMs && l1.lastSeq == l.lastSeq && l1.entriesRead == l.entriesRead
  {
    hide BuildConsumer, IdSet, Fresh;
    BuildConsumerIs(l, c);
  }

  /** The consumers of a group load exactly if they can be read, are sound, and no two have the same
      name. */
  lemma {:induction false} ConsumersExactly(z: Codec, i: In, n: nat, l: Loaded)
    requires PelOk(l)
    ensures
      var (raw, j) := RawConsumers(z, i, n);
      var (r, k) := LoadConsumers(z, i, n, l);
      && (r.Some? <==> raw.Some? && ConsumersSound(l, raw.value))
      && (r.Some? ==> r.value == BuildConsumers(l, raw.value) && k == j)
    decreases n
  {
    hide LoadConsumer, RawConsumer, ConsumerSound, ConsumersSound, PelOk, BuildConsumer;
    if n == 0 {
      NoConsumers(l);
    } else {
      ConsumerExactly(z, i, l);
      var (c, i1) := RawConsumer(z, i);
      if c.Some? {
        var cs := RawConsumers(z, i1, n - 1).0;
        if ConsumerSound(l, c.value) {
          var l1 := BuildConsumer(l, c.value);
          BuildsOne(l, c.value);
          ConsumersExactly(z, i1, n - 1, l1);
          if cs.Some? {
            ConsumersCons(l, l1, c.value, cs.value);
            assert ([c.value] + cs.value)[0] == c.value && ([c.value] + cs.value)[1..] == cs.value;
          }
        } else if cs.Some? {
          FirstIsSound(l, c.value, cs.value);
        }
      }
    }
  }

  lemma FirstIsSound(l: Loaded, c: Consumer, cs: seq<Consumer>)
    ensures ConsumersSound(l, [c] + cs) ==> ConsumerSound(l, c)
  {
    assert ([c] + cs)[0] == c;
    hide ConsumerSound;
  }

  /** Some consumer has the entry in its list. */
  ghost predicate HasConsumer(cs: seq<Consumer>, id: Bytes) {
    exists c :: c in cs && id in IdSet(c.pel)
  }

  /** An entry of the global list gets an owner exactly if some consumer has it in its list. */
  lemma {:induction false} OwnerExactly(l: Loaded, cs: seq<Consumer>, id: Bytes)
    requires PelOk(l) && ConsumersSound(l, cs) && id in l.pel
    ensures
      var r := BuildConsumers(l, cs);
      && r.pel == l.pel && l.pel[id] in r.nacks
      && (r.nacks[l.pel[id]].owner.Some? <==> l.nacks[l.pel[id]].owner.Some? || HasConsumer(cs, id))
    decreases |cs|
  {
    hide ConsumerSound, BuildConsumer, IdSet;
    if cs != [] {
      BuildsOne(l, cs[0]);
      var l1 := BuildConsumer(l, cs[0]);
      assert [cs[0]] + cs[1..] == cs;
      ConsumersCons(l, l1, cs[0], cs[1..]);
      OwnerExactly(l1, cs[1..], id);
    }
  }

  /** Every loaded entry has an owner, as deep validation asks, exactly if every ID of the global list
      is in some consumer's. */
  lemma AllOwnedExactly(l: Loaded, cs: seq<Consumer>)
    requires PelOk(l) && ConsumersSound(l, cs) && forall id :: id in l.pel ==> l.nacks[l.pel[id]].owner.None?
    ensures AllOwned(BuildConsumers(l, cs)) <==> forall id :: id in l.pel ==> HasConsumer(cs, id)
  {
    hide ConsumersSound, BuildConsumers, HasConsumer;
    forall id | id in l.pel
      ensures
        var r := BuildConsumers(l, cs);
        r.pel == l.pel && l.pel[id] in r.nacks && (r.nacks[l.pel[id]].owner.Some? <==> HasConsumer(cs, id))
    {
      OwnerExactly(l, cs, id);
    }
    if l.pel == map[] { SamePel(l, cs); }
  }

  lemma {:induction false} SamePel(l: Loaded, cs: seq<Consumer>)
    requires PelOk(l) && ConsumersSound(l, cs)
    ensures BuildConsumers(l, cs).pel == l.pel
    decreases |cs|
  {
    hide ConsumerSound, BuildConsumer, IdSet;
    if cs != [] {
      BuildsOne(l, cs[0]);
      assert [cs[0]] + cs[1..] == cs;
      ConsumersCons(l, BuildConsumer(l, cs[0]), cs[0], cs[1..]);
      SamePel(BuildConsumer(l, cs[0]), cs[1..]);
    }
  }

  /** What is read of a group. */
  datatype RawGroup = RawGroup(name: Bytes, lastMs: uint64, lastSeq: uint64, entriesRead: uint64,
                               entries: seq<(Bytes, RawEntry)>, consumers: seq<Consumer>)

  function GroupAt(z: Codec, i: In): (Option<RawGroup>, In) {
    var (name, i1) := LoadString(z, i);
    if name.None? then (None, i1)
    else
      var (ms, i2) := LoadLen(i1);
      var (sq, i3) := LoadLen(i2);
      if i3.bad then (None, i3)
      else
        var (entriesRead, i4) := LoadLen(i3);
        if i4.bad then (None, i4)
        else
          var (n, i5) := LoadLen(i4);
          if n == LENERR then (None, i5)
          else
            var (es, i6) := Entries(i5, n);
            if es.None? then (None, i6)
            else
              var (m, i7) := LoadLen(i6);
              if m == LENERR then (None, i7)
              else
                var (cs, i8) := RawConsumers(z, i7, m);
                (if cs.None? then None else Some(RawGroup(name.value, ms, sq, entriesRead, es.value, cs.value)), i8)
  }

  /** The IDs of the global list differ, and so do the consumers; each consumer's IDs differ and are
      among those of the global list, which under deep validation are all taken. */
  ghost predicate GroupSound(g: RawGroup, deep: bool) {
    var ids := Names(g.entries);
    && AllNew(ids, {})
    && (forall i, j :: 0 <= i < j < |g.consumers| ==> g.consumers[i].name != g.consumers[j].name)
    && (forall c :: c in g.consumers ==> Fresh(c.pel, {}) && forall p :: p in c.pel ==> p.id in ids)
    && (deep ==> forall id :: id in ids ==> HasConsumer(g.consumers, id))
  }

  function NoGroup(g: RawGroup): Loaded {
    Loaded(g.lastMs, g.lastSeq, g.entriesRead, map[], map[], map[], 0)
  }

  lemma NoGroupOk(g: RawGroup)
    ensures PelOk(NoGroup(g)) && NoGroup(g).pel.Keys == {}
  {
  }

  lemma SoundIs(g: RawGroup, l: Loaded)
    requires PelOk(NoGroup(g)) && Listed(NoGroup(g), l, g.entries)
    ensures ConsumersSound(l, g.consumers) <==>
      && (forall i, j :: 0 <= i < j < |g.consumers| ==> g.consumers[i].name != g.consumers[j].name)
      && (forall c :: c in g.consumers ==> Fresh(c.pel, {}) && forall p :: p in c.pel ==> p.id in Names(g.entries))
    ensures forall id :: id in l.pel ==> l.pel[id] in l.nacks && l.nacks[l.pel[id]].owner.None?
    ensures forall id :: id in l.pel <==> id in Names(g.entries)
  {
    hide Names, Fresh;
    forall id | id in l.pel ensures l.pel[id] in l.nacks && l.nacks[l.pel[id]].owner.None? {
      EntryNamed(g.entries, id);
    }
  }

  lemma EntryNamed(es: seq<(Bytes, RawEntry)>, id: Bytes)
    requires id in Names(es)
    ensures exists e :: e in es && e.0 == id
  {
    var k :| 0 <= k < |es| && Names(es)[k] == id;
    assert es[k] in es;
  }

  /** A consumer group loads exactly if it can be read, no group of its name has been loaded, and its
      lists are sound; and then its global list holds the entries and its consumers are built from
      theirs. */
  lemma GroupExactly(z: Codec, i: In, deep: bool, groups: map<Bytes, Loaded>)
    ensures
      var (raw, j) := GroupAt(z, i);
      var (r, k) := LoadGroup(z, i, deep, groups);
      && (r.Some? <==> raw.Some? && raw.value.name !in groups && GroupSound(raw.value, deep))
      && (r.Some? ==>
            && k == j && PelOk(NoGroup(raw.value))
            && exists l :: Listed(NoGroup(raw.value), l, raw.value.entries)
                           && r.value == groups[raw.value.name := BuildConsumers(l, raw.value.consumers)])
  {
    hide LoadString, LoadLen, LoadEntries, LoadConsumers, Entries, RawConsumers, AllOwned, PelOk, Listed, AllNew,
      GroupSound, BuildConsumers;
    var (name, i1) := LoadString(z, i);
    var (ms, i2) := LoadLen(i1);
    var (sq, i3) := LoadLen(i2);
    var (entriesRead, i4) := LoadLen(i3);
    var (n, i5) := LoadLen(i4);
    var l0 := Loaded(ms, sq, entriesRead, map[], map[], map[], 0);
    var (es, i6) := Entries(i5, n);
    var (m, i7) := LoadLen(i6);
    var (cs, i8) := RawConsumers(z, i7, m);
    EmptyOk(l0);
    EntriesExactly(i5, n, l0);
    var l := LoadEntries(i5, n, l0).0;
    if l.Some? {
      ListedOk(l0, l.value, es.value);
      ConsumersExactly(z, i7, m, l.value);
    }
    if name.Some? && es.Some? && cs.Some? {
      GroupSoundIs(RawGroup(name.value, ms, sq, entriesRead, es.value, cs.value), deep, l);
    }
  }

  lemma EmptyOk(l: Loaded)
    ensures l.pel == map[] ==> PelOk(l) && l.pel.Keys == {}
  {
  }

  lemma ListedOk(l0: Loaded, l: Loaded, es: seq<(Bytes, RawEntry)>)
    requires PelOk(l0) && Listed(l0, l, es)
    ensures PelOk(l)
  {
  }

  lemma GroupSoundIs(g: RawGroup, deep: bool, l: Option<Loaded>)
    requires PelOk(NoGroup(g)) && (l.Some? <==> AllNew(Names(g.entries), {}))
    requires l.Some? ==> Listed(NoGroup(g), l.value, g.entries)
    ensures GroupSound(g, deep) <==>
      l.Some? && ConsumersSound(l.value, g.consumers) && (deep ==> AllOwned(BuildConsumers(l.value, g.consumers)))
  {
    hide Names, Fresh, AllNew, AllOwned, BuildConsumers, HasConsumer, PelOk, Listed, ConsumersSound;
    if l.Some? {
      SoundIs(g, l.value);
      ListedOk(NoGroup(g), l.value, g.entries);
      if ConsumersSound(l.value, g.consumers) { AllOwnedExactly(l.value, g.consumers); }
    }
  }

  // -------------------------------------------------------------------- objects

  /** A set: skipped if it is empty, loaded if its members can be read and differ, else refused. */
  lemma SetExactly(e: Env, i: In)
    ensures
      var (n, i1) := LoadLen(i);
      var raw := Strings(e.z, i1, n).0;
      var r := LoadObject(e, TYPE_SET, i).0;
      && (r.EmptyKey? <==> n == 0)
      && (r.Got? <==> 0 < n < LENERR && raw.Some? && Distinct(raw.value))
      && (r.Got? ==> r.o == OSet(Members(raw.value)))
  {
    hide LoadLen, LoadString, LoadMembers, Strings, Members;
    var (n, i1) := LoadLen(i);
    MembersExactly(e.z, i1, n, {});
    var raw := Strings(e.z, i1, n).0;
    if raw.Some? { assert {} + Members(raw.value) == Members(raw.value); }
  }

  lemma ZsetExactly(e: Env, i: In)
    ensures
      var (n, i1) := LoadLen(i);
      var raw := Scored(e.z, i1, n).0;
      var r := LoadObject(e, TYPE_ZSET_2, i).0;
      && (r.EmptyKey? <==> n == 0)
      && (r.Got? <==> 0 < n < LENERR && raw.Some? && Numbers(raw.value) && Distinct(Names(raw.value)))
      && (r.Got? ==> r.o.OZset? && Extends(r.o.scores, map[], raw.value))
  {
    hide LoadLen, LoadString, LoadElems, Scored, Members, Names, Numbers, Extends;
    var (n, i1) := LoadLen(i);
    ElemsExactly(e.z, i1, n, map[]);
  }

  /** A list is also skipped if all its nodes are packed and hold nothing. */
  lemma ListExactly(e: Env, i: In)
    ensures
      var (n, i1) := LoadLen(i);
      var raw := Numbered(e.z, i1, n).0;
      var sound := 0 < n < LENERR && raw.Some? && NodesSound(e, raw.value);
      var r := LoadObject(e, TYPE_LIST_QUICKLIST_2, i).0;
      && (r.EmptyKey? <==> n == 0 || (sound && Filled(e, raw.value) == []))
      && (r.Got? <==> sound && Filled(e, raw.value) != [])
      && (r.Got? ==> r.o == OList(Filled(e, raw.value)))
  {
    hide LoadLen, LoadString, LoadNodes, Numbered, NodesSound, Filled;
    var (n, i1) := LoadLen(i);
    NodesExactly(e, i1, n, []);
    var raw := Numbered(e.z, i1, n).0;
    if raw.Some? { assert [] + Filled(e, raw.value) == Filled(e, raw.value); }
  }

  /** The expire times of a hash count from a minimum that is a 48-bit time or says that there is
      none. */
  lemma HashExactly(e: Env, i: In, meta: bool)
    ensures
      var (min, i1) := if meta then LoadTime(i) else (0, i);
      var (n, i2) := LoadLen(i1);
      var headed := !i1.bad && 0 <= min <= 0x1_0000_0000_0000;
      var r := LoadObject(e, if meta then TYPE_HASH_METADATA else TYPE_HASH, i).0;
      && (r.EmptyKey? <==> headed && n == 0)
      && (r.Got? ==> headed)
      && (headed ==>
            var raw := Fields(e.z, i2, n, meta).0;
            && (r.Got? <==>
                  0 < n < LENERR && raw.Some? && InTime(raw.value, min) && Distinct(Names(Timed(raw.value, min))))
            && (r.Got? ==> r.o.OHash? && Extends(r.o.fields, map[], Timed(raw.value, min))))
  {
    hide LoadLen, LoadString, LoadTime, LoadFields, Fields, Members, Names, InTime, Timed, Extends;
    var (min, i1) := if meta then LoadTime(i) else (0, i);
    var (n, i2) := LoadLen(i1);
    if !i1.bad && 0 <= min <= EXPIRE_INVALID { FieldsExactly(e.z, i2, n, meta, min, map[]); }
  }

  /** A packed encoding: refused unless it is sound, and skipped if it holds nothing. */
  lemma PackedExactly(e: Env, kind: nat, i: In)
    requires IsPacked(kind)
    ensures
      var i1 := if kind == TYPE_HASH_LISTPACK_EX then LoadTime(i).1 else i;
      var blob := LoadString(e.z, i1).0;
      var sound := !i1.bad && blob.Some? && e.packOk(kind, blob.value);
      var r := LoadObject(e, kind, i).0;
      && (r.EmptyKey? <==> sound && e.packCount(kind, blob.value) == 0)
      && (r.Got? <==> sound && e.packCount(kind, blob.value) != 0)
      && (r.Got? ==> r.o == OPacked(kind, blob.value))
  {
    hide LoadString, LoadTime;
  }

  // -------------------------------------------------------------------- streams

  /** n groups one after the other. */
  function Groups(z: Codec, i: In, n: nat): (Option<seq<RawGroup>>, In)
    decreases n
  {
    if n == 0 then (Some([]), i)
    else
      var (g, i1) := GroupAt(z, i);
      if g.None? then (None, i1)
      else
        var (gs, i2) := Groups(z, i1, n - 1);
        (if gs.None? then None else Some([g.value] + gs.value), i2)
  }

  ghost predicate GroupsSound(gs: seq<RawGroup>, deep: bool, acc: set<Bytes>) {
    && (forall g :: g in gs ==> GroupSound(g, deep) && g.name !in acc)
    && (forall i, j :: 0 <= i < j < |gs| ==> gs[i].name != gs[j].name)
  }

  lemma GroupsCons(g: RawGroup, gs: seq<RawGroup>, deep: bool, acc: set<Bytes>)
    ensures GroupsSound([g] + gs, deep, acc) <==>
      GroupSound(g, deep) && g.name !in acc && GroupsSound(gs, deep, acc + {g.name})
  {
    hide GroupSound;
    var all := [g] + gs;
    assert all[0] == g;
    assert forall x :: x in all <==> x == g || x in gs;
    if GroupsSound(all, deep, acc) {
      forall i, j | 0 <= i < j < |gs| ensures gs[i].name != gs[j].name { assert all[i + 1].name != all[j + 1].name; }
      forall d | d in gs ensures d.name != g.name {
        var i :| 0 <= i < |gs| && gs[i] == d;
        assert all[0].name != all[i + 1].name;
      }
    }
  }

  lemma NoGroups(deep: bool, acc: set<Bytes>)
    ensures GroupsSound([], deep, acc)
  {
  }

  lemma {:induction false} GroupsExactly(e: Env, i: In, n: nat, acc: map<Bytes, Loaded>)
    ensures
      var (raw, j) := Groups(e.z, i, n);
      var (r, k) := LoadGroups(e, i, n, acc);
      && (r.Some? <==> raw.Some? && GroupsSound(raw.value, e.deep, acc.Keys))
      && (r.Some? ==> k == j)
    decreases n
  {
    hide LoadGroup, GroupAt, GroupSound, GroupsSound, Listed, PelOk, BuildConsumers;
    if n == 0 {
      NoGroups(e.deep, acc.Keys);
    } else {
      GroupExactly(e.z, i, e.deep, acc);
      var (g, i1) := GroupAt(e.z, i);
      if g.Some? {
        var gs := Groups(e.z, i1, n - 1).0;
        if gs.Some? { GroupsCons(g.value, gs.value, e.deep, acc.Keys); }
        var m := LoadGroup(e.z, i, e.deep, acc).0;
        if m.Some? {
          assert m.value.Keys == acc.Keys + {g.value.name};
          GroupsExactly(e, i1, n - 1, m.value);
        }
      }
    }
  }

  /** A stream loads exactly if its packs can be read and are sound, one is there if its length is not
      0, and its groups can be read, are sound and have different names. */
  lemma StreamExactly(e: Env, i: In)
    ensures
      var (n, i1) := LoadLen(i);
      var (packs, i2) := Pairs(e.z, i1, n);
      var (heads, i3) := LoadHeads(i2, 8, []);
      var (m, i4) := LoadLen(i3);
      var groups := Groups(e.z, i4, m).0;
      var r := LoadObject(e, TYPE_STREAM_LISTPACKS_3, i).0;
      && !r.EmptyKey?
      && (r.Got? <==>
            && n != LENERR && packs.Some? && PacksSound(e, packs.value) && Distinct(Names(packs.value))
            && !i3.bad && (heads[0] != 0 ==> packs.value != [])
            && m != LENERR && groups.Some? && GroupsSound(groups.value, e.deep, {}))
      && (r.Got? ==> r.o.OStream? && Extends(r.o.packs, map[], packs.value) && r.o.heads == heads)
  {
    hide LoadLen, LoadString, LoadPacks, LoadHeads, LoadGroups, Pairs, Groups, PacksSound, GroupsSound, Distinct, Names,
      Members;
    var (n, i1) := LoadLen(i);
    PacksExactly(e, i1, n, map[]);
    var (packs, i2) := LoadPacks(e, i1, n, map[]);
    var (heads, i3) := LoadHeads(i2, 8, []);
    var (m, i4) := LoadLen(i3);
    var none: map<Bytes, Loaded> := map[];
    GroupsExactly(e, i4, m, none);
    assert none.Keys == {};
    var raw := Pairs(e.z, i1, n).0;
    if packs.Some? { NoneIfNone(packs.value, raw.value); }
  }

  lemma NoneIfNone(r: map<Bytes, Bytes>, ps: seq<(Bytes, Bytes)>)
    requires Extends(r, map[], ps)
    ensures r == map[] <==> ps == []
  {
    if ps != [] { assert ps[0] in ps; }
    if ps == [] { assert Members(Names(ps)) == {}; }
  }
}
