/** Values in the RDB format: strings, lists of nodes, sets, sorted sets, hashes with or without
    field expiry, packed encodings and streams. */
module RdbObjects {
  import opened Wrappers
  import opened RdbBytes
  import opened RdbStrings
  import opened RdbStream

  const TYPE_STRING := 0
  const TYPE_SET := 2
  const TYPE_HASH := 4
  const TYPE_ZSET_2 := 5
  const TYPE_SET_INTSET := 11
  const TYPE_HASH_LISTPACK := 16
  const TYPE_ZSET_LISTPACK := 17
  const TYPE_LIST_QUICKLIST_2 := 18
  const TYPE_SET_LISTPACK := 20
  const TYPE_STREAM_LISTPACKS_3 := 21
  const TYPE_HASH_METADATA := 24
  const TYPE_HASH_LISTPACK_EX := 25

  const CONTAINER_PLAIN := 1
  const CONTAINER_PACKED := 2

  /** Expire times of hash fields are 48-bit; the next number says that there is none. */
  const EXPIRE_MAX := 0xFFFF_FFFF_FFFF
  const EXPIRE_INVALID := EXPIRE_MAX + 1

  /** The string codec, and what is asked of packed blobs: the integrity checks (which depend on
      whether validation is deep) and the number of entries. */
  datatype Env = Env(z: Codec, deep: bool, packOk: (nat, Bytes) -> bool, packCount: (nat, Bytes) -> nat)

  // ------------------------------------------------------------------- values

  /** A quicklist node; stored is its compressed form if it is held compressed. */
  datatype Node = Node(container: nat, data: Bytes, stored: Option<Bytes>)

  datatype Field = Field(name: Bytes, value: Bytes, expire: Option<nat>)

  /** heads are length, last ID, first ID, maximal tombstone ID (each ms and seq) and the number of
      entries ever added. */
  datatype Stream = Stream(packs: seq<(Bytes, Bytes)>, heads: seq<uint64>, groups: seq<Group>)

  /** A value as it is saved, its elements in the order of the iteration; scores are the bits of a
      binary64. */
  datatype Value =
    | VString(s: Str)
    | VList(nodes: seq<Node>)
    | VSet(members: seq<Bytes>)
    | VZset(elems: seq<(Bytes, nat)>)
    | VHash(fields: seq<Field>)
    | VPacked(kind: nat, blob: Bytes, minExpire: int64)
    | VStream(stream: Stream)

  /** A value as it is loaded. */
  datatype Object =
    | OString(text: Bytes)
    | OList(nodes: seq<(nat, Bytes)>)
    | OSet(members: set<Bytes>)
    | OZset(scores: map<Bytes, nat>)
    | OHash(fields: map<Bytes, (Bytes, Option<nat>)>)
    | OPacked(kind: nat, blob: Bytes)
    | OStream(packs: map<Bytes, Bytes>, heads: seq<uint64>, groups: map<Bytes, Loaded>)

  datatype Result = Got(o: Object) | EmptyKey | Fail

  predicate IsNan(bits: nat) {
    bits % 0x8000_0000_0000_0000 > 0x7FF0_0000_0000_0000
  }

  predicate IsPacked(kind: nat) {
    kind == TYPE_SET_INTSET || kind == TYPE_SET_LISTPACK || kind == TYPE_ZSET_LISTPACK
    || kind == TYPE_HASH_LISTPACK || kind == TYPE_HASH_LISTPACK_EX
  }

  // -------------------------------------------------------------- list of nodes

  predicate NodeFits(e: Env, n: Node) {
    && (n.container == CONTAINER_PLAIN || n.container == CONTAINER_PACKED)
    && 0 < |n.data| < U64 - 1
    && (n.stored.Some? ==> |n.stored.value| < U64 - 1 && e.z.lzf.decompress(n.stored.value, |n.data|) == Some(n.data))
    && (n.container == CONTAINER_PACKED ==>
         e.packOk(TYPE_LIST_QUICKLIST_2, n.data) && e.packCount(TYPE_LIST_QUICKLIST_2, n.data) > 0)
  }

  function SaveNode(e: Env, n: Node): Bytes
    requires NodeFits(e, n)
  {
    SaveLen(n.container) + (if n.stored.Some? then SaveLzfBlob(n.stored.value, |n.data|) else SaveString(e.z, n.data))
  }

  function SaveNodes(e: Env, ns: seq<Node>): Bytes
    requires forall n :: n in ns ==> NodeFits(e, n)
  {
    if ns == [] then [] else SaveNode(e, ns[0]) + SaveNodes(e, ns[1..])
  }

  function LoadNodes(e: Env, i: In, n: nat, acc: seq<(nat, Bytes)>): (r: (Option<seq<(nat, Bytes)>>, In))
    ensures |r.1.rest| <= |i.rest|
    decreases n
  {
    if n == 0 then (Some(acc), i)
    else
      var (container, i1) := LoadLen(i);
      if container != CONTAINER_PLAIN && container != CONTAINER_PACKED then (None, i1)
      else
        var (data, i2) := LoadString(e.z, i1);
        if data.None? || data.value == [] then (None, i2)
        else if container == CONTAINER_PLAIN then LoadNodes(e, i2, n - 1, acc + [(container, data.value)])
        else if !e.packOk(TYPE_LIST_QUICKLIST_2, data.value) then (None, i2)
        else if e.packCount(TYPE_LIST_QUICKLIST_2, data.value) == 0 then LoadNodes(e, i2, n - 1, acc)
        else LoadNodes(e, i2, n - 1, acc + [(container, data.value)])
  }

  function Plain(ns: seq<Node>): seq<(nat, Bytes)> {
    if ns == [] then [] else [(ns[0].container, ns[0].data)] + Plain(ns[1..])
  }

  lemma NodeRoundTrip(e: Env, n: Node, rest: Bytes)
    requires LzfInverts(e.z.lzf) && NodeFits(e, n)
    ensures LoadLen(In(SaveNode(e, n) + rest, false)).0 == n.container
    ensures LoadString(e.z, LoadLen(In(SaveNode(e, n) + rest, false)).1) == (Some(n.data), In(rest, false))
  {
    hide SaveString, LoadString, SaveLen, LoadLen, SaveLzfBlob;
    var body := if n.stored.Some? then SaveLzfBlob(n.stored.value, |n.data|) else SaveString(e.z, n.data);
    assert SaveNode(e, n) + rest == SaveLen(n.container) + (body + rest);
    LenRoundTrip(n.container, body + rest);
    if n.stored.Some? {
      LoadCompressed(e.z, n.stored.value, n.data, rest);
    } else {
      StringRoundTrip(e.z, n.data, rest);
    }
  }

  lemma {:induction false} NodesRoundTrip(e: Env, ns: seq<Node>, acc: seq<(nat, Bytes)>, rest: Bytes)
    requires LzfInverts(e.z.lzf) && forall n :: n in ns ==> NodeFits(e, n)
    ensures LoadNodes(e, In(SaveNodes(e, ns) + rest, false), |ns|, acc) == (Some(acc + Plain(ns)), In(rest, false))
    decreases |ns|
  {
    hide SaveNode, LoadLen, LoadString;
    if ns == [] {
      assert SaveNodes(e, ns) + rest == rest && acc + Plain(ns) == acc;
    } else {
      var more := SaveNodes(e, ns[1..]) + rest;
      assert SaveNodes(e, ns) + rest == SaveNode(e, ns[0]) + more;
      NodeRoundTrip(e, ns[0], more);
      NodesRoundTrip(e, ns[1..], acc + [(ns[0].container, ns[0].data)], rest);
      assert acc + [(ns[0].container, ns[0].data)] + Plain(ns[1..]) == acc + Plain(ns);
    }
  }

  // ------------------------------------------------------------------------ sets

  function SaveMembers(z: Codec, ms: seq<Bytes>): Bytes
    requires forall m :: m in ms ==> Small(|m|)
  {
    if ms == [] then []
    else
      assert Small(|ms[0]|);
      SaveString(z, ms[0]) + SaveMembers(z, ms[1..])
  }

  function LoadMembers(z: Codec, i: In, n: nat, acc: set<Bytes>): (r: (Option<set<Bytes>>, In))
    ensures |r.1.rest| <= |i.rest|
    decreases n
  {
    if n == 0 then (Some(acc), i)
    else
      var (m, i1) := LoadString(z, i);
      if m.None? || m.value in acc then (None, i1) else LoadMembers(z, i1, n - 1, acc + {m.value})
  }

  predicate Distinct(ms: seq<Bytes>) {
    forall i, j :: 0 <= i < j < |ms| ==> ms[i] != ms[j]
  }

  function Members(ms: seq<Bytes>): set<Bytes> {
    set m | m in ms
  }

  lemma {:induction false} MembersRoundTrip(z: Codec, ms: seq<Bytes>, acc: set<Bytes>, rest: Bytes)
    requires LzfInverts(z.lzf) && Distinct(ms) && forall m :: m in ms ==> Small(|m|) && m !in acc
    ensures LoadMembers(z, In(SaveMembers(z, ms) + rest, false), |ms|, acc)
      == (Some(acc + Members(ms)), In(rest, false))
    decreases |ms|
  {
    hide SaveString, LoadString;
    if ms == [] {
      assert SaveMembers(z, ms) + rest == rest && acc + Members(ms) == acc;
    } else {
      var more := SaveMembers(z, ms[1..]) + rest;
      assert SaveMembers(z, ms) + rest == SaveString(z, ms[0]) + more;
      StringRoundTrip(z, ms[0], more);
      MembersRoundTrip(z, ms[1..], acc + {ms[0]}, rest);
      assert acc + {ms[0]} + Members(ms[1..]) == acc + Members(ms);
    }
  }

  // ----------------------------------------------------------------- sorted sets

  /** rdbSaveBinaryDoubleValue. */
  function SaveScore(bits: nat): Bytes {
    LittleEndian(bits, 8)
  }

  predicate ElemFits(el: (Bytes, nat)) {
    Small(|el.0|) && el.1 < U64 && !IsNan(el.1)
  }

  /** The elements from the greatest to the smallest. */
  function SaveElems(z: Codec, es: seq<(Bytes, nat)>): Bytes
    requires forall el :: el in es ==> ElemFits(el)
  {
    if es == [] then []
    else
      var el := es[|es| - 1];
      assert ElemFits(el);
      SaveString(z, el.0) + SaveScore(el.1) + SaveElems(z, es[..|es| - 1])
  }

  function LoadElems(z: Codec, i: In, n: nat, acc: map<Bytes, nat>): (r: (Option<map<Bytes, nat>>, In))
    ensures |r.1.rest| <= |i.rest|
    decreases n
  {
    if n == 0 then (Some(acc), i)
    else
      var (m, i1) := LoadString(z, i);
      if m.None? then (None, i1)
      else
        var (s, i2) := Read(i1, 8);
        if s.None? || IsNan(FromLittleEndian(s.value)) || m.value in acc then (None, i2)
        else LoadElems(z, i2, n - 1, acc[m.value := FromLittleEndian(s.value)])
  }

  predicate DistinctElems(es: seq<(Bytes, nat)>) {
    forall i, j :: 0 <= i < j < |es| ==> es[i].0 != es[j].0
  }

  function Scores(es: seq<(Bytes, nat)>): map<Bytes, nat> {
    if es == [] then map[] else Scores(es[..|es| - 1])[es[|es| - 1].0 := es[|es| - 1].1]
  }

  lemma {:induction false} ScoresKeys(es: seq<(Bytes, nat)>)
    ensures forall m :: m in Scores(es) <==> exists i :: 0 <= i < |es| && es[i].0 == m
  {
    if es != [] {
      var k := |es| - 1;
      ScoresKeys(es[..k]);
      forall m ensures m in Scores(es) <==> exists i :: 0 <= i < |es| && es[i].0 == m {
        if m in Scores(es[..k]) {
          var i :| 0 <= i < k && es[..k][i].0 == m;
          assert es[i].0 == m;
        }
        if i :| 0 <= i < |es| && es[i].0 == m {
          if i < k { assert es[..k][i].0 == m; }
        }
      }
    }
  }

  lemma {:induction false} ElemsRoundTrip(z: Codec, es: seq<(Bytes, nat)>, acc: map<Bytes, nat>, rest: Bytes)
    requires LzfInverts(z.lzf) && DistinctElems(es) && forall el :: el in es ==> ElemFits(el) && el.0 !in acc
    ensures LoadElems(z, In(SaveElems(z, es) + rest, false), |es|, acc) == (Some(acc + Scores(es)), In(rest, false))
    decreases |es|
  {
    hide SaveString, LoadString, LittleEndian, FromLittleEndian, IsNan;
    if es == [] {
      assert SaveElems(z, es) + rest == rest && acc + Scores(es) == acc;
    } else {
      var k := |es| - 1;
      var el := es[k];
      var more := SaveElems(z, es[..k]) + rest;
      assert SaveElems(z, es) + rest == SaveString(z, el.0) + (SaveScore(el.1) + more);
      StringRoundTrip(z, el.0, SaveScore(el.1) + more);
      ReadBack(SaveScore(el.1), more);
      Powers();
      LittleEndianInverts(el.1, 8);
      ElemsRoundTrip(z, es[..k], acc[el.0 := el.1], rest);
      ScoresKeys(es[..k]);
      assert el.0 !in Scores(es[..k]);
      assert acc[el.0 := el.1] + Scores(es[..k]) == acc + Scores(es);
    }
  }

  // ---------------------------------------------------------------------- hashes

  function HasExpire(fs: seq<Field>): bool {
    exists i :: 0 <= i < |fs| && fs[i].expire.Some?
  }

  /** hashTypeGetMinExpire: the earliest expire time of a field. */
  function MinExpire(fs: seq<Field>): (m: nat)
    ensures forall f :: f in fs && f.expire.Some? ==> m <= f.expire.value
    ensures (exists f :: f in fs && f.expire == Some(m))
      || (m == EXPIRE_INVALID && forall f :: f in fs ==> f.expire.None?)
  {
    if fs == [] then EXPIRE_INVALID
    else
      var m := MinExpire(fs[1..]);
      var f := fs[0];
      if f.expire.Some? && (f.expire.value < m || forall g :: g in fs[1..] ==> g.expire.None?) then f.expire.value
      else m
  }

  predicate FieldFits(f: Field) {
    Small(|f.name|) && Small(|f.value|) && (f.expire.Some? ==> f.expire.value <= EXPIRE_MAX)
  }

  /** The TTL of a field as saved: 0 for none, else relative to the minimum, plus one. */
  function Ttl(f: Field, min: nat): uint64
    requires FieldFits(f) && (f.expire.Some? ==> min <= f.expire.value)
  {
    if f.expire.None? then 0 else f.expire.value - min + 1
  }

  function SaveFields(z: Codec, fs: seq<Field>, meta: bool, min: nat): Bytes
    requires forall f :: f in fs ==> FieldFits(f) && (f.expire.Some? ==> min <= f.expire.value)
  {
    if fs == [] then []
    else
      assert FieldFits(fs[0]);
      (if meta then SaveLen(Ttl(fs[0], min)) else []) + SaveString(z, fs[0].name) + SaveString(z, fs[0].value)
      + SaveFields(z, fs[1..], meta, min)
  }

  /** A loaded TTL of 0 is none; the sum is in 64 bits. */
  function ExpireAt(ttl: uint64, min: uint64): uint64 {
    if ttl == 0 then 0 else ((ttl as int) + (min as int) - 1) % U64
  }

  function LoadFields(z: Codec, i: In, n: nat, meta: bool, min: uint64, acc: map<Bytes, (Bytes, Option<nat>)>)
    : (r: (Option<map<Bytes, (Bytes, Option<nat>)>>, In))
    ensures |r.1.rest| <= |i.rest|
    decreases n
  {
    if n == 0 then (Some(acc), i)
    else
      var (ttl, i1) := if meta then LoadLenByRef(i) else (Some((false, 0)), i);
      if ttl.None? || ExpireAt(ttl.value.1, min) > EXPIRE_MAX then (None, i1)
      else
        var at := ExpireAt(ttl.value.1, min);
        var (name, i2) := LoadString(z, i1);
        if name.None? then (None, i2)
        else
          var (value, i3) := LoadString(z, i2);
          if value.None? || name.value in acc then (None, i3)
          else LoadFields(z, i3, n - 1, meta, min, acc[name.value := (value.value, if at == 0 then None else Some(at))])
  }

  predicate DistinctFields(fs: seq<Field>) {
    forall i, j :: 0 <= i < j < |fs| ==> fs[i].name != fs[j].name
  }

  /** What the fields mean. */
  function FieldMap(fs: seq<Field>, acc: map<Bytes, (Bytes, Option<nat>)>): map<Bytes, (Bytes, Option<nat>)> {
    if fs == [] then acc else FieldMap(fs[1..], acc[fs[0].name := (fs[0].value, fs[0].expire)])
  }

  /** What they load as: a field that expires at time 0 has lost its expiry. */
  function Survives(f: Field): Option<nat> {
    if f.expire == Some(0) then None else f.expire
  }

  function LoadedMap(fs: seq<Field>, acc: map<Bytes, (Bytes, Option<nat>)>): map<Bytes, (Bytes, Option<nat>)> {
    if fs == [] then acc else LoadedMap(fs[1..], acc[fs[0].name := (fs[0].value, Survives(fs[0]))])
  }

  lemma FieldRoundTrip(z: Codec, f: Field, meta: bool, min: nat, rest: Bytes)
    requires LzfInverts(z.lzf) && FieldFits(f) && (f.expire.Some? ==> meta && min <= f.expire.value) && min < U64
    ensures
      var s := (if meta then SaveLen(Ttl(f, min)) else []) + SaveString(z, f.name) + SaveString(z, f.value) + rest;
      var (ttl, i1) := if meta then LoadLenByRef(In(s, false)) else (Some((false, 0)), In(s, false));
      && ttl == Some((false, if meta then Ttl(f, min) else 0))
      && LoadString(z, i1) == (Some(f.name), In(SaveString(z, f.value) + rest, false))
      && LoadString(z, In(SaveString(z, f.value) + rest, false)) == (Some(f.value), In(rest, false))
  {
    hide SaveString, LoadString, SaveLen, LoadLenByRef;
    var t := SaveString(z, f.name) + (SaveString(z, f.value) + rest);
    var s := (if meta then SaveLen(Ttl(f, min)) else []) + SaveString(z, f.name) + SaveString(z, f.value) + rest;
    if meta {
      assert s == SaveLen(Ttl(f, min)) + t;
      LenByRefRoundTrip(Ttl(f, min), t);
    } else {
      assert s == t;
    }
    StringRoundTrip(z, f.name, SaveString(z, f.value) + rest);
    StringRoundTrip(z, f.value, rest);
  }

  lemma TtlInverts(f: Field, meta: bool, min: nat)
    requires FieldFits(f) && (f.expire.Some? ==> meta && min <= f.expire.value) && min < U64
    ensures var at := ExpireAt(if meta then Ttl(f, min) else 0, min);
      at <= EXPIRE_MAX && (if at == 0 then None else Some(at)) == Survives(f)
  {
  }

  lemma {:induction false} FieldsRoundTrip(z: Codec, fs: seq<Field>, meta: bool, min: nat,
                                           acc: map<Bytes, (Bytes, Option<nat>)>, rest: Bytes)
    requires LzfInverts(z.lzf) && DistinctFields(fs) && min < U64
    requires forall f ::
      f in fs ==> FieldFits(f) && (f.expire.Some? ==> meta && min <= f.expire.value) && f.name !in acc
    ensures LoadFields(z, In(SaveFields(z, fs, meta, min) + rest, false), |fs|, meta, min, acc)
      == (Some(LoadedMap(fs, acc)), In(rest, false))
    decreases |fs|
  {
    hide SaveString, LoadString, SaveLen, LoadLenByRef, Ttl, ExpireAt, Survives;
    if fs == [] {
      assert SaveFields(z, fs, meta, min) + rest == rest;
    } else {
      var f := fs[0];
      var more := SaveFields(z, fs[1..], meta, min) + rest;
      assert SaveFields(z, fs, meta, min) + rest
        == (if meta then SaveLen(Ttl(f, min)) else []) + SaveString(z, f.name) + SaveString(z, f.value) + more;
      FieldRoundTrip(z, f, meta, min, more);
      TtlInverts(f, meta, min);
      FieldsRoundTrip(z, fs[1..], meta, min, acc[f.name := (f.value, Survives(f))], rest);
    }
  }

  lemma {:induction false} NoneLost(fs: seq<Field>, acc: map<Bytes, (Bytes, Option<nat>)>)
    requires forall f :: f in fs ==> f.expire != Some(0)
    ensures LoadedMap(fs, acc) == FieldMap(fs, acc)
    decreases |fs|
  {
    if fs != [] { NoneLost(fs[1..], acc[fs[0].name := (fs[0].value, fs[0].expire)]); }
  }

  lemma {:induction false} MapsAt(fs: seq<Field>, acc: map<Bytes, (Bytes, Option<nat>)>, k: nat)
    requires DistinctFields(fs) && k < |fs|
    ensures fs[k].name in FieldMap(fs, acc) && FieldMap(fs, acc)[fs[k].name] == (fs[k].value, fs[k].expire)
    ensures fs[k].name in LoadedMap(fs, acc) && LoadedMap(fs, acc)[fs[k].name] == (fs[k].value, Survives(fs[k]))
    decreases |fs|
  {
    if k > 0 {
      MapsAt(fs[1..], acc[fs[0].name := (fs[0].value, fs[0].expire)], k - 1);
      MapsAt(fs[1..], acc[fs[0].name := (fs[0].value, Survives(fs[0]))], k - 1);
    } else {
      MapsKeep(fs[1..], acc[fs[0].name := (fs[0].value, fs[0].expire)], fs[0].name);
      MapsKeep(fs[1..], acc[fs[0].name := (fs[0].value, Survives(fs[0]))], fs[0].name);
    }
  }

  lemma {:induction false} MapsKeep(fs: seq<Field>, acc: map<Bytes, (Bytes, Option<nat>)>, name: Bytes)
    requires name in acc && forall f :: f in fs ==> f.name != name
    ensures name in FieldMap(fs, acc) && FieldMap(fs, acc)[name] == acc[name]
    ensures name in LoadedMap(fs, acc) && LoadedMap(fs, acc)[name] == acc[name]
    decreases |fs|
  {
    if fs != [] {
      MapsKeep(fs[1..], acc[fs[0].name := (fs[0].value, fs[0].expire)], name);
      MapsKeep(fs[1..], acc[fs[0].name := (fs[0].value, Survives(fs[0]))], name);
    }
  }

  /** Field expiry survives saving and loading if and only if no field expires at time 0, which the
      format cannot tell from no expiry. */
  lemma HashExpirySurvives(fs: seq<Field>)
    requires DistinctFields(fs)
    ensures LoadedMap(fs, map[]) == FieldMap(fs, map[]) <==> forall f :: f in fs ==> f.expire != Some(0)
  {
    if forall f :: f in fs ==> f.expire != Some(0) {
      NoneLost(fs, map[]);
    } else {
      var k :| 0 <= k < |fs| && fs[k].expire == Some(0);
      MapsAt(fs, map[], k);
    }
  }

  // --------------------------------------------------------------------- streams

  predicate PackFits(e: Env, p: (Bytes, Bytes)) {
    |p.0| == ID_SIZE && Small(|p.1|) && e.packOk(TYPE_STREAM_LISTPACKS_3, p.1)
      && e.packCount(TYPE_STREAM_LISTPACKS_3, p.1) > 0
  }

  function SavePacks(e: Env, ps: seq<(Bytes, Bytes)>): Bytes
    requires forall p :: p in ps ==> PackFits(e, p)
  {
    if ps == [] then []
    else
      assert PackFits(e, ps[0]);
      SaveString(e.z, ps[0].0) + SaveString(e.z, ps[0].1) + SavePacks(e, ps[1..])
  }

  function LoadPacks(e: Env, i: In, n: nat, acc: map<Bytes, Bytes>): (r: (Option<map<Bytes, Bytes>>, In))
    ensures |r.1.rest| <= |i.rest|
    decreases n
  {
    if n == 0 then (Some(acc), i)
    else
      var (key, i1) := LoadString(e.z, i);
      if key.None? || |key.value| != ID_SIZE then (None, i1)
      else
        var (lp, i2) := LoadString(e.z, i1);
        if lp.None? || !e.packOk(TYPE_STREAM_LISTPACKS_3, lp.value)
           || e.packCount(TYPE_STREAM_LISTPACKS_3, lp.value) == 0 || key.value in acc
        then (None, i2)
        else LoadPacks(e, i2, n - 1, acc[key.value := lp.value])
  }

  predicate DistinctPacks(ps: seq<(Bytes, Bytes)>) {
    forall i, j :: 0 <= i < j < |ps| ==> ps[i].0 != ps[j].0
  }

  function PackMap(ps: seq<(Bytes, Bytes)>, acc: map<Bytes, Bytes>): map<Bytes, Bytes> {
    if ps == [] then acc else PackMap(ps[1..], acc[ps[0].0 := ps[0].1])
  }

  lemma {:induction false} PacksRoundTrip(e: Env, ps: seq<(Bytes, Bytes)>, acc: map<Bytes, Bytes>, rest: Bytes)
    requires LzfInverts(e.z.lzf) && DistinctPacks(ps) && forall p :: p in ps ==> PackFits(e, p) && p.0 !in acc
    ensures LoadPacks(e, In(SavePacks(e, ps) + rest, false), |ps|, acc) == (Some(PackMap(ps, acc)), In(rest, false))
    decreases |ps|
  {
    hide SaveString, LoadString;
    if ps == [] {
      assert SavePacks(e, ps) + rest == rest;
    } else {
      var p := ps[0];
      var more := SavePacks(e, ps[1..]) + rest;
      assert SavePacks(e, ps) + rest == SaveString(e.z, p.0) + (SaveString(e.z, p.1) + more);
      StringRoundTrip(e.z, p.0, SaveString(e.z, p.1) + more);
      StringRoundTrip(e.z, p.1, more);
      PacksRoundTrip(e, ps[1..], acc[p.0 := p.1], rest);
    }
  }

  function SaveHeads(hs: seq<uint64>): Bytes {
    if hs == [] then [] else SaveLen(hs[0]) + SaveHeads(hs[1..])
  }

  /** Lengths read without looking for errors. */
  function LoadHeads(i: In, n: nat, acc: seq<uint64>): (r: (seq<uint64>, In))
    ensures |r.1.rest| <= |i.rest| && |r.0| == |acc| + n
    decreases n
  {
    if n == 0 then (acc, i)
    else
      var (h, i1) := LoadLen(i);
      LoadHeads(i1, n - 1, acc + [h])
  }

  lemma {:induction false} HeadsRoundTrip(hs: seq<uint64>, acc: seq<uint64>, rest: Bytes)
    ensures LoadHeads(In(SaveHeads(hs) + rest, false), |hs|, acc) == (acc + hs, In(rest, false))
    decreases |hs|
  {
    hide SaveLen, LoadLen;
    if hs == [] {
      assert SaveHeads(hs) + rest == rest && acc + hs == acc;
    } else {
      var more := SaveHeads(hs[1..]) + rest;
      assert SaveHeads(hs) + rest == SaveLen(hs[0]) + more;
      LenRoundTrip(hs[0], more);
      HeadsRoundTrip(hs[1..], acc + [hs[0]], rest);
      assert acc + [hs[0]] + hs[1..] == acc + hs;
    }
  }

  function SaveGroups(z: Codec, gs: seq<Group>): Bytes
    requires forall g :: g in gs ==> GroupFits(g)
  {
    if gs == [] then []
    else
      assert gs[0] in gs;
      SaveGroup(z, gs[0]) + SaveGroups(z, gs[1..])
  }

  function LoadGroups(e: Env, i: In, n: nat, acc: map<Bytes, Loaded>): (r: (Option<map<Bytes, Loaded>>, In))
    ensures |r.1.rest| <= |i.rest|
    decreases n
  {
    if n == 0 then (Some(acc), i)
    else
      var (m, i1) := LoadGroup(e.z, i, e.deep, acc);
      if m.None? then (None, i1) else LoadGroups(e, i1, n - 1, m.value)
  }

  function BuildGroups(gs: seq<Group>, acc: map<Bytes, Loaded>): map<Bytes, Loaded>
    requires forall g :: g in gs ==> GroupFits(g)
  {
    if gs == [] then acc
    else
      assert gs[0] in gs;
      BuildGroups(gs[1..], acc[gs[0].name := BuildGroup(gs[0])])
  }

  ghost predicate GroupsOk(gs: seq<Group>) {
    (forall g :: g in gs ==> WellFormed(g)) && (forall i, j :: 0 <= i < j < |gs| ==> gs[i].name != gs[j].name)
  }

  lemma {:induction false} GroupsRoundTrip(e: Env, gs: seq<Group>, acc: map<Bytes, Loaded>, rest: Bytes)
    requires LzfInverts(e.z.lzf) && GroupsOk(gs) && forall g :: g in gs ==> g.name !in acc
    ensures LoadGroups(e, In(SaveGroups(e.z, gs) + rest, false), |gs|, acc)
      == (Some(BuildGroups(gs, acc)), In(rest, false))
    decreases |gs|
  {
    hide SaveGroup, LoadGroup, WellFormed, BuildGroup;
    FitGroups(gs);
    if gs == [] {
      assert SaveGroups(e.z, gs) + rest == rest;
    } else {
      var g := gs[0];
      var more := SaveGroups(e.z, gs[1..]) + rest;
      assert SaveGroups(e.z, gs) + rest == SaveGroup(e.z, g) + more;
      GroupParses(e.z, g, e.deep, acc, more);
      GroupsRoundTrip(e, gs[1..], acc[g.name := BuildGroup(g)], rest);
    }
  }

  lemma FitGroups(gs: seq<Group>)
    requires GroupsOk(gs)
    ensures forall g :: g in gs ==> GroupFits(g)
  {
  }

  /** Every loaded group is the saved one of its name. */
  ghost predicate AllRebuilt(gs: seq<Group>, ls: map<Bytes, Loaded>) {
    && ls.Keys == (set g | g in gs :: g.name)
    && forall g :: g in gs ==> GroupFits(g) && Rebuilt(g, ls[g.name])
  }

  lemma {:induction false} BuildGroupsAt(gs: seq<Group>, acc: map<Bytes, Loaded>)
    requires GroupsOk(gs) && forall g :: g in gs ==> g.name !in acc && GroupFits(g)
    ensures
      var r := BuildGroups(gs, acc);
      && r.Keys == acc.Keys + (set g | g in gs :: g.name)
      && (forall n :: n in acc ==> r[n] == acc[n])
      && (forall g :: g in gs ==> Rebuilt(g, r[g.name]))
    decreases |gs|
  {
    hide WellFormed, BuildGroup, Rebuilt, GroupFits;
    if gs != [] {
      var g := gs[0];
      BuildGroupIs(g);
      BuildGroupsAt(gs[1..], acc[g.name := BuildGroup(g)]);
      var r := BuildGroups(gs, acc);
      forall h | h in gs ensures h.name in r && Rebuilt(h, r[h.name]) {
        if h != g { assert h in gs[1..]; }
      }
    }
  }

  ghost predicate StreamFits(e: Env, s: Stream) {
    && Small(|s.packs|) && Small(|s.groups|) && |s.heads| == 8
    && DistinctPacks(s.packs) && (forall p :: p in s.packs ==> PackFits(e, p))
    && (s.heads[0] != 0 ==> s.packs != [])
    && GroupsOk(s.groups) && (forall g :: g in s.groups ==> GroupFits(g))
  }

  function SaveStream(e: Env, s: Stream): Bytes
    requires Small(|s.packs|) && Small(|s.groups|) && (forall p :: p in s.packs ==> PackFits(e, p))
    requires forall g :: g in s.groups ==> GroupFits(g)
  {
    SaveLen(|s.packs|) + SavePacks(e, s.packs) + SaveHeads(s.heads) + SaveLen(|s.groups|) + SaveGroups(e.z, s.groups)
  }

  function LoadStream(e: Env, i: In): (r: (Result, In))
    ensures |r.1.rest| <= |i.rest|
  {
    var (n, i1) := LoadLen(i);
    if n == LENERR then (Fail, i1)
    else
      var (packs, i2) := LoadPacks(e, i1, n, map[]);
      if packs.None? then (Fail, i2)
      else
        var (heads, i3) := LoadHeads(i2, 8, []);
        if i3.bad || (heads[0] != 0 && packs.value == map[]) then (Fail, i3)
        else
          var (m, i4) := LoadLen(i3);
          if m == LENERR then (Fail, i4)
          else
            var (groups, i5) := LoadGroups(e, i4, m, map[]);
            if groups.None? then (Fail, i5) else (Got(OStream(packs.value, heads, groups.value)), i5)
  }

  lemma StreamParses(e: Env, s: Stream, rest: Bytes)
    requires LzfInverts(e.z.lzf) && StreamFits(e, s)
    ensures LoadStream(e, In(SaveStream(e, s) + rest, false))
      == (Got(OStream(PackMap(s.packs, map[]), s.heads, BuildGroups(s.groups, map[]))), In(rest, false))
  {
    hide SaveLen, LoadLen, SavePacks, LoadPacks, SaveHeads, LoadHeads, SaveGroups, LoadGroups, PackMap, BuildGroups;
    var t2 := SaveLen(|s.groups|) + (SaveGroups(e.z, s.groups) + rest);
    var t1 := SavePacks(e, s.packs) + (SaveHeads(s.heads) + t2);
    assert SaveStream(e, s) + rest == SaveLen(|s.packs|) + t1;
    LenRoundTrip(|s.packs|, t1);
    PacksRoundTrip(e, s.packs, map[], SaveHeads(s.heads) + t2);
    HeadsRoundTrip(s.heads, [], t2);
    assert [] + s.heads == s.heads;
    LenRoundTrip(|s.groups|, SaveGroups(e.z, s.groups) + rest);
    GroupsRoundTrip(e, s.groups, map[], rest);
    if s.packs != [] { PacksNotEmpty(s.packs); }
  }

  lemma PacksNotEmpty(ps: seq<(Bytes, Bytes)>)
    requires ps != []
    ensures PackMap(ps, map[]) != map[]
  {
    PackKept(ps[1..], map[ps[0].0 := ps[0].1], ps[0].0);
  }

  lemma {:induction false} PackKept(ps: seq<(Bytes, Bytes)>, acc: map<Bytes, Bytes>, key: Bytes)
    requires key in acc
    ensures key in PackMap(ps, acc)
    decreases |ps|
  {
    if ps != [] { PackKept(ps[1..], acc[ps[0].0 := ps[0].1], key); }
  }

  // ------------------------------------------------------------------ all objects

  /** What a value must be to be saved and come back: sizes that can be written, elements that
      differ, no empty collection, no NaN. */
  ghost predicate Fits(e: Env, v: Value) {
    match v
    case VString(s) => s.Raw? ==> Small(|s.bytes|)
    case VList(ns) => 0 < |ns| < U64 - 1 && forall n :: n in ns ==> NodeFits(e, n)
    case VSet(ms) => 0 < |ms| < U64 - 1 && Distinct(ms) && forall m :: m in ms ==> Small(|m|)
    case VZset(es) => 0 < |es| < U64 - 1 && DistinctElems(es) && forall el :: el in es ==> ElemFits(el)
    case VHash(fs) => 0 < |fs| < U64 - 1 && DistinctFields(fs) && forall f :: f in fs ==> FieldFits(f)
    case VPacked(kind, blob, _) =>
      IsPacked(kind) && Small(|blob|) && e.packOk(kind, blob) && e.packCount(kind, blob) > 0
    case VStream(s) => StreamFits(e, s)
  }

  /** rdbSaveObjectType. */
  function TypeOf(v: Value): (t: nat)
  {
    match v
    case VString(_) => TYPE_STRING
    case VList(_) => TYPE_LIST_QUICKLIST_2
    case VSet(_) => TYPE_SET
    case VZset(_) => TYPE_ZSET_2
    case VHash(fs) => if HasExpire(fs) then TYPE_HASH_METADATA else TYPE_HASH
    case VPacked(kind, _, _) => kind
    case VStream(_) => TYPE_STREAM_LISTPACKS_3
  }

  /** rdbSaveObject. */
  ghost function SaveObject(e: Env, v: Value): Bytes
    requires Fits(e, v)
  {
    match v
    case VString(s) => SaveStr(e.z, s)
    case VList(ns) => SaveLen(|ns|) + SaveNodes(e, ns)
    case VSet(ms) => SaveLen(|ms|) + SaveMembers(e.z, ms)
    case VZset(es) => SaveLen(|es|) + SaveElems(e.z, es)
    case VHash(fs) => SaveHash(e.z, fs)
    case VPacked(kind, blob, min) =>
      (if kind == TYPE_HASH_LISTPACK_EX then SaveTime(min) else []) + SaveString(e.z, blob)
    case VStream(s) => SaveStream(e, s)
  }

  function SaveHash(z: Codec, fs: seq<Field>): Bytes
    requires |fs| < U64 - 1 && forall f :: f in fs ==> FieldFits(f)
  {
    var min := MinExpire(fs);
    var meta := HasExpire(fs);
    MinBound(fs);
    (if meta then SaveTime(min) else []) + SaveLen(|fs|) + SaveFields(z, fs, meta, min)
  }

  function LoadHash(z: Codec, i: In, meta: bool): (r: (Result, In))
    ensures |r.1.rest| <= |i.rest|
  {
    var (min, i1) := if meta then LoadTime(i) else (0, i);
    if i1.bad || min < 0 || min > EXPIRE_INVALID then (Fail, i1)
    else
      var (n, i2) := LoadLen(i1);
      if n == LENERR then (Fail, i2)
      else if n == 0 then (EmptyKey, i2)
      else
        var (m, i3) := LoadFields(z, i2, n, meta, min, map[]);
        if m.None? then (Fail, i3) else (Got(OHash(m.value)), i3)
  }

  /** rdbLoadObject for the types that are saved today. */
  function LoadObject(e: Env, kind: nat, i: In): (r: (Result, In))
    ensures |r.1.rest| <= |i.rest|
  {
    if kind == TYPE_STRING then
      var (s, i1) := LoadString(e.z, i);
      if s.None? then (Fail, i1) else (Got(OString(s.value)), i1)
    else if kind == TYPE_LIST_QUICKLIST_2 then
      var (n, i1) := LoadLen(i);
      if n == LENERR then (Fail, i1)
      else if n == 0 then (EmptyKey, i1)
      else
        var (ns, i2) := LoadNodes(e, i1, n, []);
        if ns.None? then (Fail, i2) else if ns.value == [] then (EmptyKey, i2) else (Got(OList(ns.value)), i2)
    else if kind == TYPE_SET then
      var (n, i1) := LoadLen(i);
      if n == LENERR then (Fail, i1)
      else if n == 0 then (EmptyKey, i1)
      else
        var (ms, i2) := LoadMembers(e.z, i1, n, {});
        if ms.None? then (Fail, i2) else (Got(OSet(ms.value)), i2)
    else if kind == TYPE_ZSET_2 then
      var (n, i1) := LoadLen(i);
      if n == LENERR then (Fail, i1)
      else if n == 0 then (EmptyKey, i1)
      else
        var (es, i2) := LoadElems(e.z, i1, n, map[]);
        if es.None? then (Fail, i2) else (Got(OZset(es.value)), i2)
    else if kind == TYPE_HASH || kind == TYPE_HASH_METADATA then LoadHash(e.z, i, kind == TYPE_HASH_METADATA)
    else if IsPacked(kind) then
      var (_, i1) := if kind == TYPE_HASH_LISTPACK_EX then LoadTime(i) else (0, i);
      if i1.bad then (Fail, i1)
      else
        var (blob, i2) := LoadString(e.z, i1);
        if blob.None? || !e.packOk(kind, blob.value) then (Fail, i2)
        else if e.packCount(kind, blob.value) == 0 then (EmptyKey, i2)
        else (Got(OPacked(kind, blob.value)), i2)
    else if kind == TYPE_STREAM_LISTPACKS_3 then LoadStream(e, i)
    else (Fail, i)
  }

  /** What a value means when it has been loaded. */
  ghost predicate Represents(v: Value, o: Object) {
    match v
    case VString(s) => o == OString(Text(s))
    case VList(ns) => o == OList(Plain(ns))
    case VSet(ms) => o == OSet(Members(ms))
    case VZset(es) => o == OZset(Scores(es))
    case VHash(fs) => o == OHash(FieldMap(fs, map[]))
    case VPacked(kind, blob, _) => o == OPacked(kind, blob)
    case VStream(s) =>
      o.OStream? && o.packs == PackMap(s.packs, map[]) && o.heads == s.heads && AllRebuilt(s.groups, o.groups)
  }

  /** No field of a hash expires at time 0. */
  predicate ExpiryIsPositive(v: Value) {
    v.VHash? ==> forall f :: f in v.fields ==> f.expire != Some(0)
  }

  lemma Pieces(a: Bytes, b: Bytes, c: Bytes, d: Bytes)
    ensures a + b + c + d == a + (b + (c + d))
  {
  }

  lemma LoadedFields(z: Codec, fs: seq<Field>, meta: bool, min: nat, rest: Bytes)
    requires LzfInverts(z.lzf) && DistinctFields(fs) && (forall f :: f in fs ==> FieldFits(f)) && min < U64
    requires if meta then min == MinExpire(fs) else !HasExpire(fs)
    ensures LoadFields(z, In(SaveFields(z, fs, meta, min) + rest, false), |fs|, meta, min, map[])
      == (Some(LoadedMap(fs, map[])), In(rest, false))
  {
    hide SaveFields, LoadFields, LoadedMap, FieldFits, DistinctFields, LzfInverts;
    AnyExpire(fs);
    FieldsRoundTrip(z, fs, meta, min, map[], rest);
  }

  lemma HashLoads(z: Codec, i: In, meta: bool, min: int64, i1: In, n: nat, i2: In, m: map<Bytes, (Bytes, Option<nat>)>,
                  i3: In)
    requires if meta then LoadTime(i) == (min, i1) else min == 0 && i1 == i
    requires !i1.bad && 0 <= min <= EXPIRE_INVALID && LoadLen(i1) == (n, i2) && 0 < n && n != LENERR
    requires LoadFields(z, i2, n, meta, min, map[]) == (Some(m), i3)
    ensures LoadHash(z, i, meta) == (Got(OHash(m)), i3)
  {
    hide LoadTime, LoadLen, LoadFields;
  }

  lemma HashBytes(z: Codec, fs: seq<Field>, rest: Bytes)
    requires |fs| < U64 - 1 && forall f :: f in fs ==> FieldFits(f)
    ensures MinExpire(fs) <= EXPIRE_INVALID
    ensures
      var body := SaveFields(z, fs, HasExpire(fs), MinExpire(fs)) + rest;
      SaveHash(z, fs) + rest
      == if HasExpire(fs) then SaveTime(MinExpire(fs)) + (SaveLen(|fs|) + body) else SaveLen(|fs|) + body
  {
    MinBound(fs);
    hide SaveTime, SaveLen, SaveFields, FieldFits, MinExpire, HasExpire;
    var fields := SaveFields(z, fs, HasExpire(fs), MinExpire(fs));
    if HasExpire(fs) {
      Pieces(SaveTime(MinExpire(fs)), SaveLen(|fs|), fields, rest);
    } else {
      Pieces([], SaveLen(|fs|), fields, rest);
    }
  }

  lemma HashMetaRoundTrip(z: Codec, fs: seq<Field>, rest: Bytes)
    requires LzfInverts(z.lzf) && 0 < |fs| < U64 - 1 && DistinctFields(fs) && (forall f :: f in fs ==> FieldFits(f))
      && HasExpire(fs)
    ensures LoadHash(z, In(SaveHash(z, fs) + rest, false), true) == (Got(OHash(LoadedMap(fs, map[]))), In(rest, false))
  {
    hide SaveHash, LoadHash, SaveTime, LoadTime, SaveLen, LoadLen, SaveFields, LoadFields, LoadedMap, FieldFits,
      MinExpire, HasExpire, DistinctFields, LzfInverts;
    HashBytes(z, fs, rest);
    var min := MinExpire(fs);
    var body := SaveFields(z, fs, true, min) + rest;
    TimeRoundTrip(min, SaveLen(|fs|) + body);
    LenRoundTrip(|fs|, body);
    LoadedFields(z, fs, true, min, rest);
    HashLoads(z, In(SaveTime(min) + (SaveLen(|fs|) + body), false), true, min, In(SaveLen(|fs|) + body, false), |fs|,
              In(body, false), LoadedMap(fs, map[]), In(rest, false));
  }

  lemma HashPlainRoundTrip(z: Codec, fs: seq<Field>, rest: Bytes)
    requires LzfInverts(z.lzf) && 0 < |fs| < U64 - 1 && DistinctFields(fs) && (forall f :: f in fs ==> FieldFits(f))
      && !HasExpire(fs)
    ensures LoadHash(z, In(SaveHash(z, fs) + rest, false), false) == (Got(OHash(LoadedMap(fs, map[]))), In(rest, false))
  {
    hide SaveHash, LoadHash, SaveTime, LoadTime, SaveLen, LoadLen, SaveFields, LoadFields, LoadedMap, FieldFits,
      MinExpire, HasExpire, DistinctFields, LzfInverts;
    HashBytes(z, fs, rest);
    AnyExpire(fs);
    NoMeta(z, fs, MinExpire(fs));
    var body := SaveFields(z, fs, false, 0) + rest;
    LenRoundTrip(|fs|, body);
    LoadedFields(z, fs, false, 0, rest);
    HashLoads(z, In(SaveLen(|fs|) + body, false), false, 0, In(SaveLen(|fs|) + body, false), |fs|, In(body, false),
              LoadedMap(fs, map[]), In(rest, false));
  }

  lemma AnyExpire(fs: seq<Field>)
    ensures forall f :: f in fs && f.expire.Some? ==> HasExpire(fs)
  {
    forall f | f in fs && f.expire.Some? ensures HasExpire(fs) {
      var i :| 0 <= i < |fs| && fs[i] == f;
    }
  }

  lemma MinBound(fs: seq<Field>)
    requires forall f :: f in fs ==> FieldFits(f)
    ensures MinExpire(fs) <= EXPIRE_INVALID
  {
  }

  /** Without TTLs the minimum does not matter. */
  lemma {:induction false} NoMeta(z: Codec, fs: seq<Field>, min: nat)
    requires forall f :: f in fs ==> FieldFits(f) && f.expire.None?
    ensures SaveFields(z, fs, false, min) == SaveFields(z, fs, false, 0)
  {
    if fs != [] { NoMeta(z, fs[1..], min); }
  }

  lemma StringValueRoundTrip(e: Env, s: Str, rest: Bytes)
    requires LzfInverts(e.z.lzf) && Fits(e, VString(s))
    ensures LoadObject(e, TYPE_STRING, In(SaveObject(e, VString(s)) + rest, false))
      == (Got(OString(Text(s))), In(rest, false))
  {
    hide SaveStr, LoadString, Text;
    StrRoundTrip(e.z, s, rest);
  }

  /** A hash comes back with what survives of its expiries. */
  lemma HashRoundTrip(e: Env, fs: seq<Field>, rest: Bytes)
    requires LzfInverts(e.z.lzf) && Fits(e, VHash(fs))
    ensures LoadObject(e, TypeOf(VHash(fs)), In(SaveObject(e, VHash(fs)) + rest, false))
      == (Got(OHash(LoadedMap(fs, map[]))), In(rest, false))
  {
    hide SaveHash, LoadHash, LoadedMap, HasExpire;
    if HasExpire(fs) { HashMetaRoundTrip(e.z, fs, rest); } else { HashPlainRoundTrip(e.z, fs, rest); }
  }

  lemma StreamRoundTrip(e: Env, s: Stream, rest: Bytes)
    requires LzfInverts(e.z.lzf) && Fits(e, VStream(s))
    ensures LoadObject(e, TYPE_STREAM_LISTPACKS_3, In(SaveObject(e, VStream(s)) + rest, false))
      == (Got(OStream(PackMap(s.packs, map[]), s.heads, BuildGroups(s.groups, map[]))), In(rest, false))
  {
    hide SaveStream, LoadStream, BuildGroups, PackMap, GroupsOk, GroupFits;
    StreamParses(e, s, rest);
  }

  /** The object that a saved value loads to. */
  ghost function ObjectOf(e: Env, v: Value): Object
    requires Fits(e, v)
  {
    match v
    case VString(s) => OString(Text(s))
    case VList(ns) => OList(Plain(ns))
    case VSet(ms) => OSet(Members(ms))
    case VZset(es) => OZset(Scores(es))
    case VHash(fs) => OHash(LoadedMap(fs, map[]))
    case VPacked(kind, blob, _) => OPacked(kind, blob)
    case VStream(s) => OStream(PackMap(s.packs, map[]), s.heads, BuildGroups(s.groups, map[]))
  }

  lemma StreamMeans(e: Env, s: Stream)
    requires StreamFits(e, s)
    ensures AllRebuilt(s.groups, BuildGroups(s.groups, map[]))
  {
    hide BuildGroups, GroupFits, Rebuilt, WellFormed;
    BuildGroupsAt(s.groups, map[]);
  }

  /** That object is what the value means; of hash field expiries, only one at time 0 is lost. */
  lemma ObjectMeans(e: Env, v: Value)
    requires Fits(e, v)
    ensures Represents(v, ObjectOf(e, v)) <==> ExpiryIsPositive(v)
  {
    hide BuildGroups, PackMap, AllRebuilt, StreamFits, LoadedMap, FieldMap;
    match v
    case VHash(fs) => HashExpirySurvives(fs);
    case VStream(s) => StreamMeans(e, s);
    case _ =>
  }

  /** A value comes back, and exactly its bytes are used. */
  lemma ObjectRoundTrip(e: Env, v: Value, rest: Bytes)
    requires LzfInverts(e.z.lzf) && Fits(e, v)
    ensures LoadObject(e, TypeOf(v), In(SaveObject(e, v) + rest, false)) == (Got(ObjectOf(e, v)), In(rest, false))
  {
    hide LoadObject, SaveObject, Fits;
    match v
    case VString(s) => StringValueRoundTrip(e, s, rest);
    case VList(ns) => ListRoundTrip(e, ns, rest);
    case VSet(ms) => SetRoundTrip(e, ms, rest);
    case VZset(es) => ZsetRoundTrip(e, es, rest);
    case VHash(fs) => HashRoundTrip(e, fs, rest);
    case VPacked(kind, blob, min) => PackedRoundTrip(e, kind, blob, min, rest);
    case VStream(s) => StreamRoundTrip(e, s, rest);
  }

  lemma ListRoundTrip(e: Env, ns: seq<Node>, rest: Bytes)
    requires LzfInverts(e.z.lzf) && Fits(e, VList(ns))
    ensures LoadObject(e, TYPE_LIST_QUICKLIST_2, In(SaveObject(e, VList(ns)) + rest, false))
      == (Got(OList(Plain(ns))), In(rest, false))
  {
    hide SaveLen, LoadLen, SaveNodes, LoadNodes;
    assert SaveObject(e, VList(ns)) + rest == SaveLen(|ns|) + (SaveNodes(e, ns) + rest);
    LenRoundTrip(|ns|, SaveNodes(e, ns) + rest);
    NodesRoundTrip(e, ns, [], rest);
    assert [] + Plain(ns) == Plain(ns);
  }

  lemma SetRoundTrip(e: Env, ms: seq<Bytes>, rest: Bytes)
    requires LzfInverts(e.z.lzf) && Fits(e, VSet(ms))
    ensures LoadObject(e, TYPE_SET, In(SaveObject(e, VSet(ms)) + rest, false))
      == (Got(OSet(Members(ms))), In(rest, false))
  {
    hide SaveLen, LoadLen, SaveMembers, LoadMembers;
    assert SaveObject(e, VSet(ms)) + rest == SaveLen(|ms|) + (SaveMembers(e.z, ms) + rest);
    LenRoundTrip(|ms|, SaveMembers(e.z, ms) + rest);
    MembersRoundTrip(e.z, ms, {}, rest);
    assert {} + Members(ms) == Members(ms);
  }

  lemma ZsetRoundTrip(e: Env, es: seq<(Bytes, nat)>, rest: Bytes)
    requires LzfInverts(e.z.lzf) && Fits(e, VZset(es))
    ensures LoadObject(e, TYPE_ZSET_2, In(SaveObject(e, VZset(es)) + rest, false))
      == (Got(OZset(Scores(es))), In(rest, false))
  {
    hide SaveLen, LoadLen, SaveElems, LoadElems;
    assert SaveObject(e, VZset(es)) + rest == SaveLen(|es|) + (SaveElems(e.z, es) + rest);
    LenRoundTrip(|es|, SaveElems(e.z, es) + rest);
    ElemsRoundTrip(e.z, es, map[], rest);
    assert map[] + Scores(es) == Scores(es);
  }

  lemma PackedRoundTrip(e: Env, kind: nat, blob: Bytes, min: int64, rest: Bytes)
    requires LzfInverts(e.z.lzf) && Fits(e, VPacked(kind, blob, min))
    ensures LoadObject(e, kind, In(SaveObject(e, VPacked(kind, blob, min)) + rest, false))
      == (Got(OPacked(kind, blob)), In(rest, false))
  {
    hide SaveTime, LoadTime, SaveString, LoadString;
    StringRoundTrip(e.z, blob, rest);
    if kind == TYPE_HASH_LISTPACK_EX {
      assert SaveObject(e, VPacked(kind, blob, min)) + rest == SaveTime(min) + (SaveString(e.z, blob) + rest);
      TimeRoundTrip(min, SaveString(e.z, blob) + rest);
    } else {
      assert SaveObject(e, VPacked(kind, blob, min)) + rest == SaveString(e.z, blob) + rest;
    }
  }
}
