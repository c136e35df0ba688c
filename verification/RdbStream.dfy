/** Stream consumer groups in the RDB format.  The global pending list and the consumers' lists
    share their entries, so both sides of the round trip keep the entries as objects that the
    lists refer to. */
module RdbStream {
  import opened Wrappers
  import opened RdbBytes
  import opened RdbStrings

  /** streamNACK. */
  datatype Nack = Nack(time: int64, count: uint64, owner: Option<Bytes>)

  /** An entry of a pending list: the raw stream ID and a reference to the NACK. */
  datatype Pending = Pending(id: Bytes, ref: nat)

  datatype Consumer = Consumer(name: Bytes, seen: int64, active: int64, pel: seq<Pending>)

  /** A group as it is saved: lists in the order of the radix trees' iteration. */
  datatype Group = Group(
    name: Bytes, lastMs: uint64, lastSeq: uint64, entriesRead: uint64,
    pel: seq<Pending>, consumers: seq<Consumer>, nacks: map<nat, Nack>)

  datatype LoadedConsumer = LoadedConsumer(seen: int64, active: int64, pel: map<Bytes, nat>)

  /** A group as it is loaded: the trees as maps; next is the first reference not in use. */
  datatype Loaded = Loaded(
    lastMs: uint64, lastSeq: uint64, entriesRead: uint64,
    pel: map<Bytes, nat>, consumers: map<Bytes, LoadedConsumer>, nacks: map<nat, Nack>, next: nat)

  const ID_SIZE := 16

  predicate Small(n: nat) {
    n < U64 - 1
  }

  // ------------------------------------------------------------------- saving

  /** The entries that rdbSaveStreamPEL writes, with or without the NACKs. */
  function SaveEntries(pel: seq<Pending>, nacks: map<nat, Nack>, full: bool): Bytes
    requires full ==> forall p :: p in pel ==> p.ref in nacks
  {
    if pel == [] then []
    else
      var p := pel[0];
      (if full then p.id + SaveTime(nacks[p.ref].time) + SaveLen(nacks[p.ref].count) else p.id)
      + SaveEntries(pel[1..], nacks, full)
  }

  /** rdbSaveStreamPEL. */
  function SavePel(pel: seq<Pending>, nacks: map<nat, Nack>, full: bool): Bytes
    requires Small(|pel|) && (full ==> forall p :: p in pel ==> p.ref in nacks)
  {
    SaveLen(|pel|) + SaveEntries(pel, nacks, full)
  }

  predicate ConsumerFits(c: Consumer) {
    Small(|c.name|) && Small(|c.pel|)
  }

  function SaveConsumer(z: Codec, c: Consumer): Bytes
    requires ConsumerFits(c)
  {
    SaveString(z, c.name) + SaveTime(c.seen) + SaveTime(c.active) + SavePel(c.pel, map[], false)
  }

  function SaveEachConsumer(z: Codec, cs: seq<Consumer>): Bytes
    requires forall c :: c in cs ==> ConsumerFits(c)
  {
    if cs == [] then [] else SaveConsumer(z, cs[0]) + SaveEachConsumer(z, cs[1..])
  }

  predicate GroupFits(g: Group) {
    && Small(|g.name|) && Small(|g.pel|) && Small(|g.consumers|)
    && (forall c :: c in g.consumers ==> ConsumerFits(c))
    && (forall p :: p in g.pel ==> p.ref in g.nacks)
  }

  /** One consumer group of rdbSaveObject. */
  function SaveGroup(z: Codec, g: Group): Bytes
    requires GroupFits(g)
  {
    SaveString(z, g.name) + SaveLen(g.lastMs) + SaveLen(g.lastSeq) + SaveLen(g.entriesRead)
    + SavePel(g.pel, g.nacks, true) + SaveLen(|g.consumers|) + SaveEachConsumer(z, g.consumers)
  }

  // ------------------------------------------------------------------ loading

  /** One more entry of the global list. */
  function AddPending(l: Loaded, id: Bytes, time: int64, count: uint64): Loaded {
    l.(pel := l.pel[id := l.next], nacks := l.nacks[l.next := Nack(time, count, None)], next := l.next + 1)
  }

  function LoadEntries(i: In, n: nat, l: Loaded): (r: (Option<Loaded>, In))
    ensures |r.1.rest| <= |i.rest|
    decreases n
  {
    if n == 0 then (Some(l), i)
    else
      var (id, i1) := Read(i, ID_SIZE);
      if id.None? then (None, i1)
      else
        var (time, i2) := LoadTime(i1);
        var (count, i3) := LoadLen(i2);
        if i3.bad || id.value in l.pel then (None, i3)
        else LoadEntries(i3, n - 1, AddPending(l, id.value, time, count))
  }

  /** The consumer takes the group's entry: the same NACK, now owned. */
  function Assign(l: Loaded, c: Bytes, id: Bytes): Loaded
    requires c in l.consumers && id in l.pel && l.pel[id] in l.nacks
  {
    var ref := l.pel[id];
    l.(nacks := l.nacks[ref := l.nacks[ref].(owner := Some(c))],
       consumers := l.consumers[c := l.consumers[c].(pel := l.consumers[c].pel[id := ref])])
  }

  function LoadOwned(i: In, n: nat, c: Bytes, l: Loaded): (r: (Option<Loaded>, In))
    requires c in l.consumers
    ensures |r.1.rest| <= |i.rest|
    decreases n
  {
    if n == 0 then (Some(l), i)
    else
      var (id, i1) := Read(i, ID_SIZE);
      if id.None? || id.value !in l.pel || l.pel[id.value] !in l.nacks || id.value in l.consumers[c].pel then (None, i1)
      else LoadOwned(i1, n - 1, c, Assign(l, c, id.value))
  }

  function LoadConsumer(z: Codec, i: In, l: Loaded): (r: (Option<Loaded>, In))
    ensures |r.1.rest| <= |i.rest|
  {
    var (name, i1) := LoadString(z, i);
    if name.None? || name.value in l.consumers then (None, i1)
    else
      var (seen, i2) := LoadTime(i1);
      if i2.bad then (None, i2)
      else
        var (active, i3) := LoadTime(i2);
        if i3.bad then (None, i3)
        else
          var (n, i4) := LoadLen(i3);
          if n == LENERR then (None, i4)
          else LoadOwned(i4, n, name.value,
              l.(consumers := l.consumers[name.value := LoadedConsumer(seen, active, map[])]))
  }

  function LoadConsumers(z: Codec, i: In, n: nat, l: Loaded): (r: (Option<Loaded>, In))
    ensures |r.1.rest| <= |i.rest|
    decreases n
  {
    if n == 0 then (Some(l), i)
    else
      var (l1, i1) := LoadConsumer(z, i, l);
      if l1.None? then (None, i1) else LoadConsumers(z, i1, n - 1, l1.value)
  }

  /** Deep validation: every entry of the global list got a consumer. */
  predicate AllOwned(l: Loaded) {
    forall id :: id in l.pel ==> l.pel[id] in l.nacks && l.nacks[l.pel[id]].owner.Some?
  }

  /** One consumer group of rdbLoadObject; groups are those loaded before.  The last ID and the read
      counter may be any 64-bit value: only a read error stops the load. */
  function LoadGroup(z: Codec, i: In, deep: bool, groups: map<Bytes, Loaded>): (r: (Option<map<Bytes, Loaded>>, In))
    ensures |r.1.rest| <= |i.rest|
  {
    var (name, i1) := LoadString(z, i);
    if name.None? then (None, i1)
    else
      var (ms, i2) := LoadLen(i1);
      var (sq, i3) := LoadLen(i2);
      if i3.bad then (None, i3)
      else
        var (entriesRead, i4) := LoadLen(i3);
        if i4.bad || name.value in groups then (None, i4)
        else
          var (n, i5) := LoadLen(i4);
          if n == LENERR then (None, i5)
          else
            var (l, i6) := LoadEntries(i5, n, Loaded(ms, sq, entriesRead, map[], map[], map[], 0));
            if l.None? then (None, i6)
            else
              var (m, i7) := LoadLen(i6);
              if m == LENERR then (None, i7)
              else
                var (l1, i8) := LoadConsumers(z, i7, m, l.value);
                if l1.None? || (deep && !AllOwned(l1.value)) then (None, i8)
                else (Some(groups[name.value := l1.value]), i8)
  }

  // --------------------------------------------------- what a saved group loads to

  function BuildPel(l: Loaded, pel: seq<Pending>, nacks: map<nat, Nack>): Loaded
    requires forall p :: p in pel ==> p.ref in nacks
    decreases |pel|
  {
    if pel == [] then l
    else
      var k := nacks[pel[0].ref];
      BuildPel(AddPending(l, pel[0].id, k.time, k.count), pel[1..], nacks)
  }

  predicate Ids(pel: seq<Pending>) {
    && (forall i :: 0 <= i < |pel| ==> |pel[i].id| == ID_SIZE)
    && (forall i, j :: 0 <= i < j < |pel| ==> pel[i].id != pel[j].id)
  }

  lemma {:induction false} EntriesRoundTrip(pel: seq<Pending>, nacks: map<nat, Nack>, l: Loaded, rest: Bytes)
    requires Ids(pel) && forall p :: p in pel ==> p.ref in nacks && p.id !in l.pel
    ensures LoadEntries(In(SaveEntries(pel, nacks, true) + rest, false), |pel|, l)
      == (Some(BuildPel(l, pel, nacks)), In(rest, false))
    decreases |pel|
  {
    hide SaveTime, LoadTime, SaveLen, LoadLen;
    if pel == [] {
      assert SaveEntries(pel, nacks, true) + rest == rest;
    } else {
      var p := pel[0];
      var k := nacks[p.ref];
      var more := SaveEntries(pel[1..], nacks, true) + rest;
      assert SaveEntries(pel, nacks, true) + rest == p.id + (SaveTime(k.time) + (SaveLen(k.count) + more));
      ReadBack(p.id, SaveTime(k.time) + (SaveLen(k.count) + more));
      TimeRoundTrip(k.time, SaveLen(k.count) + more);
      LenRoundTrip(k.count, more);
      EntriesRoundTrip(pel[1..], nacks, AddPending(l, p.id, k.time, k.count), rest);
    }
  }

  /** Assigning a consumer's entries one by one. */
  function BuildOwned(l: Loaded, c: Bytes, pel: seq<Pending>): Loaded
    requires c in l.consumers
    decreases |pel|
  {
    if pel == [] then l
    else if pel[0].id !in l.pel || l.pel[pel[0].id] !in l.nacks then l
    else BuildOwned(Assign(l, c, pel[0].id), c, pel[1..])
  }

  lemma {:induction false} OwnedRoundTrip(pel: seq<Pending>, c: Bytes, l: Loaded, rest: Bytes)
    requires c in l.consumers && Ids(pel)
    requires forall p :: p in pel ==> p.id in l.pel && l.pel[p.id] in l.nacks && p.id !in l.consumers[c].pel
    ensures LoadOwned(In(SaveEntries(pel, map[], false) + rest, false), |pel|, c, l)
      == (Some(BuildOwned(l, c, pel)), In(rest, false))
    decreases |pel|
  {
    if pel == [] {
      assert SaveEntries(pel, map[], false) + rest == rest;
    } else {
      var more := SaveEntries(pel[1..], map[], false) + rest;
      assert SaveEntries(pel, map[], false) + rest == pel[0].id + more;
      ReadBack(pel[0].id, more);
      OwnedRoundTrip(pel[1..], c, Assign(l, c, pel[0].id), rest);
    }
  }

  function BuildConsumer(l: Loaded, c: Consumer): Loaded {
    BuildOwned(l.(consumers := l.consumers[c.name := LoadedConsumer(c.seen, c.active, map[])]), c.name, c.pel)
  }

  function BuildConsumers(l: Loaded, cs: seq<Consumer>): Loaded
    decreases |cs|
  {
    if cs == [] then l else BuildConsumers(BuildConsumer(l, cs[0]), cs[1..])
  }

  /** The global list covers the consumer's. */
  ghost predicate Covers(l: Loaded, c: Consumer) {
    forall p :: p in c.pel ==> p.id in l.pel && l.pel[p.id] in l.nacks
  }

  lemma ConsumerRoundTrip(z: Codec, c: Consumer, l: Loaded, rest: Bytes)
    requires LzfInverts(z.lzf) && ConsumerFits(c) && Ids(c.pel) && Covers(l, c) && c.name !in l.consumers
    ensures LoadConsumer(z, In(SaveConsumer(z, c) + rest, false), l) == (Some(BuildConsumer(l, c)), In(rest, false))
  {
    hide SaveString, LoadString, SaveTime, LoadTime, SaveLen, LoadLen, LoadOwned, SaveEntries;
    var entries := SaveEntries(c.pel, map[], false);
    var t := SaveLen(|c.pel|) + (entries + rest);
    assert SaveConsumer(z, c) + rest == SaveString(z, c.name) + (SaveTime(c.seen) + (SaveTime(c.active) + t));
    StringRoundTrip(z, c.name, SaveTime(c.seen) + (SaveTime(c.active) + t));
    TimeRoundTrip(c.seen, SaveTime(c.active) + t);
    TimeRoundTrip(c.active, t);
    LenRoundTrip(|c.pel|, entries + rest);
    OwnedRoundTrip(c.pel, c.name, l.(consumers := l.consumers[c.name := LoadedConsumer(c.seen, c.active, map[])]),
        rest);
  }

  lemma {:induction false} BuildOwnedKeeps(l: Loaded, c: Bytes, pel: seq<Pending>)
    requires c in l.consumers
    ensures var r := BuildOwned(l, c, pel);
      && r.pel == l.pel && r.nacks.Keys == l.nacks.Keys && r.consumers.Keys == l.consumers.Keys && r.next == l.next
      && r.lastMs == l.lastMs && r.lastSeq == l.lastSeq && r.entriesRead == l.entriesRead
      && (forall d :: d in l.consumers && d != c ==> r.consumers[d] == l.consumers[d])
    decreases |pel|
  {
    if pel != [] && pel[0].id in l.pel && l.pel[pel[0].id] in l.nacks {
      BuildOwnedKeeps(Assign(l, c, pel[0].id), c, pel[1..]);
    }
  }

  lemma {:induction false} ConsumersRoundTrip(z: Codec, cs: seq<Consumer>, l: Loaded, rest: Bytes)
    requires LzfInverts(z.lzf) && (forall c :: c in cs ==> ConsumerFits(c) && Ids(c.pel) && Covers(l, c))
    requires forall i :: 0 <= i < |cs| ==> cs[i].name !in l.consumers
    requires forall i, j :: 0 <= i < j < |cs| ==> cs[i].name != cs[j].name
    ensures LoadConsumers(z, In(SaveEachConsumer(z, cs) + rest, false), |cs|, l)
      == (Some(BuildConsumers(l, cs)), In(rest, false))
    decreases |cs|
  {
    hide LoadConsumer, SaveConsumer, BuildOwned;
    if cs == [] {
      assert SaveEachConsumer(z, cs) + rest == rest;
    } else {
      var more := SaveEachConsumer(z, cs[1..]) + rest;
      assert SaveEachConsumer(z, cs) + rest == SaveConsumer(z, cs[0]) + more;
      ConsumerRoundTrip(z, cs[0], l, more);
      BuildOwnedKeeps(l.(consumers := l.consumers[cs[0].name := LoadedConsumer(cs[0].seen, cs[0].active, map[])]),
          cs[0].name, cs[0].pel);
      var l1 := BuildConsumer(l, cs[0]);
      assert forall c :: c in cs[1..] ==> Covers(l1, c);
      ConsumersRoundTrip(z, cs[1..], l1, rest);
    }
  }

  function EmptyGroup(g: Group): Loaded {
    Loaded(g.lastMs, g.lastSeq, g.entriesRead, map[], map[], map[], 0)
  }

  function BuildGroup(g: Group): Loaded
    requires GroupFits(g)
  {
    BuildConsumers(BuildPel(EmptyGroup(g), g.pel, g.nacks), g.consumers)
  }

  // ------------------------------------------------------- groups, and sharing

  function IdSet(pel: seq<Pending>): set<Bytes> {
    set p | p in pel :: p.id
  }

  /** The consumers' lists split the global list among them, and name the same NACKs. */
  ghost predicate WellFormed(g: Group) {
    && GroupFits(g) && Ids(g.pel)
    && (forall i, j :: 0 <= i < j < |g.pel| ==> g.pel[i].ref != g.pel[j].ref)
    && (forall c :: c in g.consumers ==> Ids(c.pel))
    && (forall i, j :: 0 <= i < j < |g.consumers| ==> g.consumers[i].name != g.consumers[j].name)
    && (forall c, p :: c in g.consumers && p in c.pel ==> p in g.pel && g.nacks[p.ref].owner == Some(c.name))
    && (forall p :: p in g.pel ==> exists c :: c in g.consumers && p in c.pel)
  }

  /** The references of the global list are in use and not shared within it. */
  ghost predicate PelOk(l: Loaded) {
    && (forall id :: id in l.pel ==> l.pel[id] in l.nacks && l.pel[id] < l.next)
    && (forall id, jd :: id in l.pel && jd in l.pel && id != jd ==> l.pel[id] != l.pel[jd])
  }

  lemma {:induction false} BuildPelIs(l: Loaded, pel: seq<Pending>, nacks: map<nat, Nack>)
    requires PelOk(l) && Ids(pel) && forall p :: p in pel ==> p.ref in nacks && p.id !in l.pel
    ensures
      var r := BuildPel(l, pel, nacks);
      && PelOk(r) && r.consumers == l.consumers && r.pel.Keys == l.pel.Keys + IdSet(pel)
      && r.lastMs == l.lastMs && r.lastSeq == l.lastSeq && r.entriesRead == l.entriesRead
      && (forall id :: id in l.pel ==> r.pel[id] == l.pel[id] && r.nacks[r.pel[id]] == l.nacks[l.pel[id]])
      && (forall p :: p in pel ==> p.id in r.pel && r.nacks[r.pel[p.id]] == nacks[p.ref].(owner := None))
    decreases |pel|
  {
    hide AddPending, IdSet;
    if pel == [] {
      NoIds();
    } else {
      var k := nacks[pel[0].ref];
      var l1 := AddPending(l, pel[0].id, k.time, k.count);
      AddPendingIs(l, pel[0].id, k.time, k.count);
      BuildPelIs(l1, pel[1..], nacks);
      IdsStep(pel);
      var r := BuildPel(l, pel, nacks);
      assert r == BuildPel(l1, pel[1..], nacks);
      hide PelOk, BuildPel, Ids;
      forall p | p in pel ensures p.id in r.pel && r.nacks[r.pel[p.id]] == nacks[p.ref].(owner := None) {
        if p != pel[0] { assert p in pel[1..]; }
      }
    }
  }

  lemma NoIds()
    ensures IdSet([]) == {}
  {
  }

  lemma IdsStep(pel: seq<Pending>)
    requires pel != []
    ensures IdSet(pel) == {pel[0].id} + IdSet(pel[1..])
  {
  }

  lemma AddPendingIs(l: Loaded, id: Bytes, time: int64, count: uint64)
    requires PelOk(l) && id !in l.pel
    ensures
      var r := AddPending(l, id, time, count);
      && PelOk(r) && r.consumers == l.consumers && r.pel.Keys == l.pel.Keys + {id}
      && r.lastMs == l.lastMs && r.lastSeq == l.lastSeq && r.entriesRead == l.entriesRead
      && (forall jd :: jd in l.pel ==> r.pel[jd] == l.pel[jd] && r.nacks[r.pel[jd]] == l.nacks[l.pel[jd]])
      && r.nacks[r.pel[id]] == Nack(time, count, None)
  {
  }

  function GivenTo(n: Nack, taken: bool, c: Bytes): Nack {
    if taken then n.(owner := Some(c)) else n
  }

  lemma AssignKeeps(l: Loaded, c: Bytes, id: Bytes)
    requires PelOk(l) && c in l.consumers && id in l.pel
    ensures
      var r := Assign(l, c, id);
      && PelOk(r) && r.pel == l.pel
      && (forall jd :: jd in l.pel ==> r.nacks[l.pel[jd]] == GivenTo(l.nacks[l.pel[jd]], jd == id, c))
  {
  }

  lemma {:induction false} BuildOwnedIs(l: Loaded, c: Bytes, pel: seq<Pending>)
    requires PelOk(l) && c in l.consumers && forall p :: p in pel ==> p.id in l.pel
    ensures
      var r := BuildOwned(l, c, pel);
      && PelOk(r) && r.pel == l.pel && r.consumers.Keys == l.consumers.Keys
      && (forall id :: id in l.pel ==> r.nacks[l.pel[id]] == GivenTo(l.nacks[l.pel[id]], id in IdSet(pel), c))
      && r.consumers[c].seen == l.consumers[c].seen && r.consumers[c].active == l.consumers[c].active
      && IdSet(pel) <= l.pel.Keys && r.consumers[c].pel.Keys == l.consumers[c].pel.Keys + IdSet(pel)
      && (forall id :: id in IdSet(pel) ==> r.consumers[c].pel[id] == l.pel[id])
      && (forall id ::
           id in l.consumers[c].pel && id !in IdSet(pel) ==> r.consumers[c].pel[id] == l.consumers[c].pel[id])
    decreases |pel|
  {
    if pel != [] {
      var id := pel[0].id;
      AssignKeeps(l, c, id);
      BuildOwnedIs(Assign(l, c, id), c, pel[1..]);
      assert IdSet(pel) == {id} + IdSet(pel[1..]);
    }
  }

  /** One consumer of the loaded group has the entries of the saved one, shared with the group. */
  ghost predicate Shares(l: Loaded, c: Consumer) {
    && c.name in l.consumers
    && var d := l.consumers[c.name];
    && d.seen == c.seen && d.active == c.active && d.pel.Keys == IdSet(c.pel)
    && (forall id :: id in d.pel ==> id in l.pel && d.pel[id] == l.pel[id])
  }

  /** Who owns an entry after these consumers have been loaded. */
  ghost predicate Owned(l: Loaded, l': Loaded, cs: seq<Consumer>, id: Bytes)
    requires id in l.pel && l.pel[id] in l.nacks && l.pel[id] in l'.nacks
  {
    && (forall c :: c in cs && id in IdSet(c.pel) ==> l'.nacks[l.pel[id]] == l.nacks[l.pel[id]].(owner := Some(c.name)))
    && ((forall c :: c in cs ==> id !in IdSet(c.pel)) ==> l'.nacks[l.pel[id]] == l.nacks[l.pel[id]])
  }

  function Names(cs: seq<Consumer>): set<Bytes> {
    set c | c in cs :: c.name
  }

  /** Consumers with different names and no entry in common. */
  ghost predicate Separate(cs: seq<Consumer>) {
    forall i, j :: 0 <= i < j < |cs| ==> cs[i].name != cs[j].name && IdSet(cs[i].pel) !! IdSet(cs[j].pel)
  }

  lemma BuildConsumerIs(l: Loaded, c: Consumer)
    requires PelOk(l) && c.name !in l.consumers && forall p :: p in c.pel ==> p.id in l.pel
    ensures
      var r := BuildConsumer(l, c);
      && PelOk(r) && r.pel == l.pel && r.consumers.Keys == l.consumers.Keys + {c.name} && Shares(r, c)
      && (forall d :: d in l.consumers ==> r.consumers[d] == l.consumers[d])
      && (forall id :: id in l.pel ==> r.nacks[l.pel[id]] == GivenTo(l.nacks[l.pel[id]], id in IdSet(c.pel), c.name))
      && r.lastMs == l.lastMs && r.lastSeq == l.lastSeq && r.entriesRead == l.entriesRead
  {
    hide BuildOwned, IdSet, GivenTo;
    var l1 := l.(consumers := l.consumers[c.name := LoadedConsumer(c.seen, c.active, map[])]);
    BuildOwnedIs(l1, c.name, c.pel);
    BuildOwnedKeeps(l1, c.name, c.pel);
    var r := BuildOwned(l1, c.name, c.pel);
    assert r.consumers[c.name].pel.Keys == IdSet(c.pel);
  }

  lemma {:induction false} BuildConsumersIs(l: Loaded, cs: seq<Consumer>)
    requires PelOk(l) && Separate(cs) && forall c :: c in cs ==> c.name !in l.consumers && IdSet(c.pel) <= l.pel.Keys
    ensures
      var r := BuildConsumers(l, cs);
      && PelOk(r) && r.pel == l.pel && r.consumers.Keys == l.consumers.Keys + Names(cs)
      && r.lastMs == l.lastMs && r.lastSeq == l.lastSeq && r.entriesRead == l.entriesRead
      && (forall d :: d in l.consumers ==> r.consumers[d] == l.consumers[d])
      && (forall c :: c in cs ==> Shares(r, c))
      && (forall id :: id in l.pel ==> Owned(l, r, cs, id))
    decreases |cs|
  {
    hide BuildConsumer, IdSet;
    if cs != [] {
      var c, rest := cs[0], cs[1..];
      IdsIn(l, c);
      BuildConsumerIs(l, c);
      var l1 := BuildConsumer(l, c);
      assert Separate(rest);
      BuildConsumersIs(l1, rest);
      var r := BuildConsumers(l, cs);
      assert Names(cs) == {c.name} + Names(rest);
      forall d | d in cs ensures Shares(r, d) {
        if d == c { assert r.consumers[c.name] == l1.consumers[c.name]; } else { assert d in rest; }
      }
      forall id | id in l.pel ensures Owned(l, r, cs, id) {
        assert Owned(l1, r, rest, id);
        OwnedStep(l, l1, r, cs, id);
      }
    }
  }

  lemma IdsIn(l: Loaded, c: Consumer)
    requires IdSet(c.pel) <= l.pel.Keys
    ensures forall p :: p in c.pel ==> p.id in l.pel
  {
    forall p | p in c.pel ensures p.id in IdSet(c.pel) { }
  }

  lemma OwnedStep(l: Loaded, l1: Loaded, r: Loaded, cs: seq<Consumer>, id: Bytes)
    requires cs != [] && Separate(cs) && id in l.pel && l1.pel == l.pel
    requires l.pel[id] in l.nacks && l.pel[id] in l1.nacks && l.pel[id] in r.nacks
    requires l1.nacks[l.pel[id]] == GivenTo(l.nacks[l.pel[id]], id in IdSet(cs[0].pel), cs[0].name)
    requires Owned(l1, r, cs[1..], id)
    ensures Owned(l, r, cs, id)
  {
    hide IdSet;
    forall c | c in cs && id in IdSet(c.pel) ensures r.nacks[l.pel[id]] == l.nacks[l.pel[id]].(owner := Some(c.name)) {
      if id in IdSet(cs[0].pel) {
        forall d | d in cs[1..] ensures id !in IdSet(d.pel) {
          var j :| 1 <= j < |cs| && cs[j] == d;
        }
        var j :| 0 <= j < |cs| && cs[j] == c;
      } else {
        assert c in cs[1..];
      }
    }
    forall c | c in cs[1..] ensures c in cs { }
  }

  /** The loaded group is the saved one: same IDs, same NACK contents and owners, different NACKs
      for different entries, and each consumer's entry is the very NACK of the global list. */
  ghost predicate Rebuilt(g: Group, l: Loaded)
    requires GroupFits(g)
  {
    && l.lastMs == g.lastMs && l.lastSeq == g.lastSeq && l.entriesRead == g.entriesRead
    && l.pel.Keys == IdSet(g.pel) && l.consumers.Keys == Names(g.consumers)
    && PelOk(l)
    && (forall p :: p in g.pel ==> l.nacks[l.pel[p.id]] == g.nacks[p.ref])
    && (forall c :: c in g.consumers ==> Shares(l, c))
  }

  lemma BuildGroupIs(g: Group)
    requires WellFormed(g)
    ensures Rebuilt(g, BuildGroup(g)) && AllOwned(BuildGroup(g))
  {
    hide BuildPel, BuildConsumers, Names, IdSet, Separate, Shares;
    var l := BuildPel(EmptyGroup(g), g.pel, g.nacks);
    BuildPelIs(EmptyGroup(g), g.pel, g.nacks);
    GroupSplits(g);
    BuildConsumersIs(l, g.consumers);
    var r := BuildGroup(g);
    forall p | p in g.pel ensures p.id in r.pel && r.nacks[r.pel[p.id]] == g.nacks[p.ref] {
      EntryOwned(g, l, r, p);
    }
    forall id | id in r.pel ensures r.nacks[r.pel[id]].owner.Some? {
      var p := EntryOf(g.pel, id);
    }
  }

  lemma EntryOf(pel: seq<Pending>, id: Bytes) returns (p: Pending)
    requires id in IdSet(pel)
    ensures p in pel && p.id == id
  {
    p :| p in pel && p.id == id;
  }

  lemma EntryOwned(g: Group, l: Loaded, r: Loaded, p: Pending)
    requires WellFormed(g) && p in g.pel && PelOk(l) && PelOk(r) && r.pel == l.pel && l.pel.Keys == IdSet(g.pel)
    requires forall q :: q in g.pel ==> q.id in l.pel && l.nacks[l.pel[q.id]] == g.nacks[q.ref].(owner := None)
    requires forall id :: id in l.pel ==> Owned(l, r, g.consumers, id)
    ensures p.id in r.pel && r.nacks[r.pel[p.id]] == g.nacks[p.ref]
  {
    var c :| c in g.consumers && p in c.pel;
    assert p.id in IdSet(c.pel);
    assert Owned(l, r, g.consumers, p.id);
    hide IdSet;
  }

  lemma GroupSplits(g: Group)
    requires WellFormed(g)
    ensures Separate(g.consumers)
    ensures forall c :: c in g.consumers ==> IdSet(c.pel) <= IdSet(g.pel)
  {
    forall i, j | 0 <= i < j < |g.consumers| ensures IdSet(g.consumers[i].pel) !! IdSet(g.consumers[j].pel) {
      var a, b := g.consumers[i], g.consumers[j];
      forall p, q | p in a.pel && q in b.pel ensures p.id != q.id {
        if p.id == q.id { SameEntry(g, p, q); }
      }
    }
  }

  lemma SameEntry(g: Group, p: Pending, q: Pending)
    requires Ids(g.pel) && p in g.pel && q in g.pel && p.id == q.id
    ensures p == q
  {
    var i :| 0 <= i < |g.pel| && g.pel[i] == p;
    var j :| 0 <= j < |g.pel| && g.pel[j] == q;
    if i < j { assert g.pel[i].id != g.pel[j].id; }
  }

  lemma GroupParses(z: Codec, g: Group, deep: bool, groups: map<Bytes, Loaded>, rest: Bytes)
    requires LzfInverts(z.lzf) && WellFormed(g) && g.name !in groups
    ensures LoadGroup(z, In(SaveGroup(z, g) + rest, false), deep, groups)
      == (Some(groups[g.name := BuildGroup(g)]), In(rest, false))
  {
    hide SaveString, LoadString, SaveLen, LoadLen, LoadEntries, LoadConsumers, SaveEntries, SaveEachConsumer, AllOwned;
    var e := SaveEntries(g.pel, g.nacks, true);
    var cs := SaveEachConsumer(z, g.consumers);
    var t3 := SaveLen(|g.consumers|) + (cs + rest);
    var t2 := SaveLen(|g.pel|) + (e + t3);
    var t1 := SaveLen(g.lastMs) + (SaveLen(g.lastSeq) + (SaveLen(g.entriesRead) + t2));
    assert SaveGroup(z, g) + rest == SaveString(z, g.name) + t1;
    StringRoundTrip(z, g.name, t1);
    LenRoundTrip(g.lastMs, SaveLen(g.lastSeq) + (SaveLen(g.entriesRead) + t2));
    LenRoundTrip(g.lastSeq, SaveLen(g.entriesRead) + t2);
    LenRoundTrip(g.entriesRead, t2);
    LenRoundTrip(|g.pel|, e + t3);
    EntriesRoundTrip(g.pel, g.nacks, EmptyGroup(g), t3);
    LenRoundTrip(|g.consumers|, cs + rest);
    var l := BuildPel(EmptyGroup(g), g.pel, g.nacks);
    BuildPelIs(EmptyGroup(g), g.pel, g.nacks);
    ConsumersCovered(g, l);
    ConsumersRoundTrip(z, g.consumers, l, rest);
    BuildGroupIs(g);
  }

  lemma ConsumersCovered(g: Group, l: Loaded)
    requires WellFormed(g) && PelOk(l) && l.pel.Keys == IdSet(g.pel)
    ensures forall c :: c in g.consumers ==> Covers(l, c)
  {
    forall c, p | c in g.consumers && p in c.pel ensures p.id in l.pel && l.pel[p.id] in l.nacks {
      assert p.id in IdSet(g.pel);
    }
  }

  /** Saving and loading a group rebuilds it with all its sharing, with or without deep validation,
      whatever 64-bit values its ID, read counter and delivery counts have. */
  lemma GroupRoundTrip(z: Codec, g: Group, deep: bool, groups: map<Bytes, Loaded>, rest: Bytes)
    requires LzfInverts(z.lzf) && WellFormed(g) && g.name !in groups
    ensures
      var (r, i) := LoadGroup(z, In(SaveGroup(z, g) + rest, false), deep, groups);
      && r.Some? && i == In(rest, false) && r.value.Keys == groups.Keys + {g.name}
      && (forall n :: n in groups ==> r.value[n] == groups[n])
      && Rebuilt(g, r.value[g.name])
  {
    GroupParses(z, g, deep, groups, rest);
    BuildGroupIs(g);
    hide LoadGroup, SaveGroup, BuildGroup;
  }

  // --------------------------------------------------------------- any input

  /** Whoever owns an entry has it in his list. */
  ghost predicate OwnersHold(l: Loaded) {
    && PelOk(l)
    && (forall id :: id in l.pel && l.nacks[l.pel[id]].owner.Some? ==>
         var c := l.nacks[l.pel[id]].owner.value;
         c in l.consumers && id in l.consumers[c].pel && l.consumers[c].pel[id] == l.pel[id])
  }

  lemma {:induction false} LoadEntriesOk(i: In, n: nat, l: Loaded)
    requires OwnersHold(l) && l.consumers == map[]
    ensures var r := LoadEntries(i, n, l).0; r.Some? ==> OwnersHold(r.value) && r.value.consumers == map[]
    decreases n
  {
    if n > 0 {
      var (id, i1) := Read(i, ID_SIZE);
      if id.Some? {
        var (time, i2) := LoadTime(i1);
        var (count, i3) := LoadLen(i2);
        if !i3.bad && id.value !in l.pel { LoadEntriesOk(i3, n - 1, AddPending(l, id.value, time, count)); }
      }
    }
  }

  lemma {:induction false} LoadOwnedOk(i: In, n: nat, c: Bytes, l: Loaded)
    requires OwnersHold(l) && c in l.consumers
    ensures var r := LoadOwned(i, n, c, l).0; r.Some? ==> OwnersHold(r.value)
    decreases n
  {
    if n > 0 {
      var (id, i1) := Read(i, ID_SIZE);
      if id.Some? && id.value in l.pel && id.value !in l.consumers[c].pel {
        AssignKeeps(l, c, id.value);
        LoadOwnedOk(i1, n - 1, c, Assign(l, c, id.value));
      }
    }
  }

  lemma LoadConsumerOk(z: Codec, i: In, l: Loaded)
    requires OwnersHold(l)
    ensures var r := LoadConsumer(z, i, l).0; r.Some? ==> OwnersHold(r.value)
  {
    hide LoadString, LoadTime, LoadLen, LoadOwned, OwnersHold;
    var (name, i1) := LoadString(z, i);
    if name.Some? && name.value !in l.consumers {
      var (seen, i2) := LoadTime(i1);
      var (active, i3) := LoadTime(i2);
      var (m, i4) := LoadLen(i3);
      NewConsumerOk(l, name.value, LoadedConsumer(seen, active, map[]));
      LoadOwnedOk(i4, m, name.value, l.(consumers := l.consumers[name.value := LoadedConsumer(seen, active, map[])]));
    }
  }

  lemma NewConsumerOk(l: Loaded, name: Bytes, c: LoadedConsumer)
    requires OwnersHold(l) && name !in l.consumers
    ensures c.pel == map[] ==> OwnersHold(l.(consumers := l.consumers[name := c]))
  {
  }

  lemma {:induction false} LoadConsumersOk(z: Codec, i: In, n: nat, l: Loaded)
    requires OwnersHold(l)
    ensures var r := LoadConsumers(z, i, n, l).0; r.Some? ==> OwnersHold(r.value)
    decreases n
  {
    hide LoadConsumer, OwnersHold;
    if n > 0 {
      LoadConsumerOk(z, i, l);
      var (l1, j) := LoadConsumer(z, i, l);
      if l1.Some? { LoadConsumersOk(z, j, n - 1, l1.value); }
    }
  }

  /** Under deep validation, whatever the input was: a group that loads has an owner for each entry
      of its global list, and that consumer's list holds the same NACK. */
  lemma DeepValidationGivesOwners(z: Codec, i: In, groups: map<Bytes, Loaded>, name: Bytes)
    requires LoadGroup(z, i, true, groups).0.Some? && name in LoadGroup(z, i, true, groups).0.value && name !in groups
    ensures
      var l := LoadGroup(z, i, true, groups).0.value[name];
      forall id :: id in l.pel ==>
        && l.pel[id] in l.nacks && l.nacks[l.pel[id]].owner.Some?
        && var c := l.nacks[l.pel[id]].owner.value;
        && c in l.consumers && id in l.consumers[c].pel && l.consumers[c].pel[id] == l.pel[id]
  {
    GroupOwners(z, i, groups, name);
    hide LoadGroup;
  }

  lemma GroupOwners(z: Codec, i: In, groups: map<Bytes, Loaded>, name: Bytes)
    requires LoadGroup(z, i, true, groups).0.Some? && name in LoadGroup(z, i, true, groups).0.value && name !in groups
    ensures var l := LoadGroup(z, i, true, groups).0.value[name]; OwnersHold(l) && AllOwned(l)
  {
    hide LoadString, LoadLen, LoadEntries, LoadConsumers, AllOwned, OwnersHold;
    var (nm, i1) := LoadString(z, i);
    var (ms, i2) := LoadLen(i1);
    var (sq, i3) := LoadLen(i2);
    var (entriesRead, i4) := LoadLen(i3);
    var (n, i5) := LoadLen(i4);
    var l0 := Loaded(ms, sq, entriesRead, map[], map[], map[], 0);
    NothingOwned(l0);
    LoadEntriesOk(i5, n, l0);
    var (l, i6) := LoadEntries(i5, n, l0);
    var (m, i7) := LoadLen(i6);
    if l.Some? { LoadConsumersOk(z, i7, m, l.value); }
  }

  lemma NothingOwned(l: Loaded)
    ensures l.pel == map[] && l.nacks == map[] && l.consumers == map[] ==> OwnersHold(l)
  {
  }
}
