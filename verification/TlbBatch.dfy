/** Batched TLB flushing: one word holds a count of unmaps that still need a flush and the count
    at the last flush, updated without a lock by reclaimers and by whoever flushes. */
module TlbBatch {
  import Arithmetic

  // ------------------------------------------------------------------ the word

  /** Bits 0-14 are the pending generation, bits 16-30 the flushed one. */
  const MASK := 32767
  const LARGE := MASK / 2

  function Pending(w: nat): (p: nat)
    ensures p <= MASK
  {
    w % 32768
  }

  function Flushed(w: nat): nat {
    w / 65536
  }

  function Pack(pending: nat, flushed: nat): nat {
    pending + flushed * 65536
  }

  lemma PackIs(p: nat, f: nat)
    requires p <= MASK
    ensures Pending(Pack(p, f)) == p && Flushed(Pack(p, f)) == f
  {
    assert Pack(p, f) == 2 * f * 32768 + p;
    Arithmetic.AddMultiple(2 * f, 32768, p);
    Arithmetic.QuotientIs(f, 65536, p);
  }

  // ----------------------------------------------------------------- the steps

  /** set_tlb_ubc_flush_pending: the entry has been cleared, then the word has been read into
      batch.  stale says that no flush has happened since the entry was cleared. */
  datatype Recorder = Resting | Cleared(stale: bool) | Loaded(batch: nat, stale: bool)

  /** flush_tlb_batched_pending; since counts the records made after batch was read. */
  datatype Flusher = Waiting | Reading(batch: nat, since: nat) | Done(batch: nat, since: nat)

  /** exposed counts the records completed since the last flush. */
  datatype State = State(word: nat, exposed: nat, recorders: seq<Recorder>, flushers: map<nat, Flusher>)

  datatype Step =
    | SClear(i: nat)
    | SLoad(i: nat)
    | SCommit(i: nat)
    | SRead(f: nat)
    | SFlush(f: nat)
    | SExchange(f: nat)
    | SOwnFlush

  function Uncover(r: Recorder): Recorder {
    match r
    case Resting => Resting
    case Cleared(_) => Cleared(false)
    case Loaded(b, _) => Loaded(b, false)
  }

  /** A flush reaches every entry cleared so far. */
  function FlushAll(st: State): State {
    st.(exposed := 0, recorders := seq(|st.recorders|, i requires 0 <= i < |st.recorders| => Uncover(st.recorders[i])))
  }

  function OneMore(f: Flusher): Flusher {
    match f
    case Waiting => Waiting
    case Reading(b, n) => Reading(b, n + 1)
    case Done(b, n) => Done(b, n + 1)
  }

  /** The record is made: every flusher that has read the word is one record further behind. */
  function Complete(st: State, i: nat, word: nat): State
    requires i < |st.recorders| && st.recorders[i].Loaded?
  {
    State(word, if st.recorders[i].stale then st.exposed + 1 else st.exposed, st.recorders[i := Resting],
          map f | f in st.flushers :: OneMore(st.flushers[f]))
  }

  /** One pass of the retry loop: a reset by compare-and-exchange when pending is large, else an
      increment. */
  function Commit(st: State, i: nat): State
    requires i < |st.recorders| && st.recorders[i].Loaded?
  {
    var r := st.recorders[i];
    if Pending(r.batch) > LARGE then
      if st.word == r.batch then Complete(st, i, 1)
      else st.(recorders := st.recorders[i := Loaded(st.word, r.stale)])
    else Complete(st, i, st.word + 1)
  }

  function FlusherOf(st: State, f: nat): Flusher {
    if f in st.flushers then st.flushers[f] else Waiting
  }

  function Next(st: State, step: Step): State {
    match step
    case SClear(i) =>
      if i < |st.recorders| && st.recorders[i].Resting? then st.(recorders := st.recorders[i := Cleared(true)]) else st
    case SLoad(i) =>
      if i < |st.recorders| && st.recorders[i].Cleared? then
        st.(recorders := st.recorders[i := Loaded(st.word, st.recorders[i].stale)])
      else st
    case SCommit(i) =>
      if i < |st.recorders| && st.recorders[i].Loaded? then Commit(st, i) else st
    case SRead(f) =>
      if FlusherOf(st, f).Waiting? && Pending(st.word) != Flushed(st.word) then
        st.(flushers := st.flushers[f := Reading(st.word, 0)])
      else st
    case SFlush(f) =>
      (match FlusherOf(st, f)
       case Reading(b, n) => FlushAll(st).(flushers := st.flushers[f := Done(b, n)])
       case _ => st)
    case SExchange(f) =>
      (match FlusherOf(st, f)
       case Done(b, _) =>
         st.(flushers := st.flushers[f := Waiting],
             word := if st.word == b then Pack(Pending(b), Pending(b)) else st.word)
       case _ => st)
    case SOwnFlush => FlushAll(st)
  }

  function Run(st: State, steps: seq<Step>): State
    decreases |steps|
  {
    if steps == [] then st else Run(Next(st, steps[0]), steps[1..])
  }

  /** No flusher sees more than LARGE records between its read and its exchange. */
  predicate Paced(st: State, steps: seq<Step>)
    decreases |steps|
  {
    steps != [] ==>
      && (steps[0].SExchange? && FlusherOf(st, steps[0].f).Done? ==> FlusherOf(st, steps[0].f).since <= LARGE)
      && Paced(Next(st, steps[0]), steps[1..])
  }

  function Init(n: nat): State {
    State(0, 0, seq(n, _ => Resting), map[])
  }

  // -------------------------------------------------------------- invariants

  /** A recorder that will increment whatever the word has become. */
  predicate Armed(r: Recorder) {
    r.Loaded? && Pending(r.batch) <= LARGE
  }

  function CountArmed(rs: seq<Recorder>): (n: nat)
    ensures n <= |rs|
  {
    if rs == [] then 0 else (if Armed(rs[|rs| - 1]) then 1 else 0) + CountArmed(rs[..|rs| - 1])
  }

  lemma {:induction false} CountUpdate(rs: seq<Recorder>, i: nat, r: Recorder)
    requires i < |rs|
    ensures CountArmed(rs[i := r]) == CountArmed(rs) - (if Armed(rs[i]) then 1 else 0) + (if Armed(r) then 1 else 0)
  {
    var k := |rs| - 1;
    if i == k {
      assert rs[i := r][..k] == rs[..k];
    } else {
      assert rs[i := r][..k] == rs[..k][i := r];
      CountUpdate(rs[..k], i, r);
    }
  }

  lemma {:induction false} CountSame(rs: seq<Recorder>, rs': seq<Recorder>)
    requires |rs'| == |rs| && forall i :: 0 <= i < |rs| ==> Armed(rs'[i]) == Armed(rs[i])
    ensures CountArmed(rs') == CountArmed(rs)
  {
    if rs != [] {
      var k := |rs| - 1;
      CountSame(rs[..k], rs'[..k]);
    }
  }

  /** The fields stay apart: the pending count of the word with all armed increments added fits. */
  ghost predicate WordOk(st: State) {
    && st.word == Pack(Pending(st.word), Flushed(st.word))
    && Flushed(st.word) <= Pending(st.word)
    && Pending(st.word) + CountArmed(st.recorders) <= LARGE + |st.recorders|
  }

  /** What a flusher can tell from finding the word unchanged: either nothing was recorded since
      its read, or so much that pending went all the way round. */
  ghost predicate FlusherOk(st: State, f: nat) {
    match FlusherOf(st, f)
    case Waiting => true
    case Reading(b, n) => Behind(st.word, b, n)
    case Done(b, n) => Behind(st.word, b, n) && (n == 0 ==> st.exposed == 0)
  }

  ghost predicate Behind(w: nat, b: nat, n: nat) {
    || Pending(w) == Pending(b) + n
    || (n >= Pending(w) && n + Pending(b) >= LARGE + 1 + Pending(w))
  }

  ghost predicate Safe(st: State) {
    && WordOk(st)
    && (forall f :: FlusherOk(st, f))
    && (st.exposed > 0 ==> Pending(st.word) != Flushed(st.word))
  }

  lemma Increment(w: nat)
    requires w == Pack(Pending(w), Flushed(w)) && Pending(w) < MASK
    ensures Pending(w + 1) == Pending(w) + 1 && Flushed(w + 1) == Flushed(w)
    ensures w + 1 == Pack(Pending(w + 1), Flushed(w + 1))
  {
    PackIs(Pending(w) + 1, Flushed(w));
  }

  lemma FlushersFollow(st: State, i: nat, w: nat)
    requires i < |st.recorders| && st.recorders[i].Loaded? && forall f :: FlusherOk(st, f)
    requires Pending(w) == Pending(st.word) + 1 || (w == 1 && Pending(st.word) > LARGE)
    ensures forall f :: FlusherOk(Complete(st, i, w), f)
  {
    hide Behind, Pending;
    forall f ensures FlusherOk(Complete(st, i, w), f) {
      assert FlusherOk(st, f);
      if f in st.flushers && !st.flushers[f].Waiting? {
        OneBehind(st.word, w, st.flushers[f].batch, st.flushers[f].since);
      }
    }
  }

  lemma CommitKeeps(st: State, i: nat)
    requires Safe(st) && |st.recorders| <= LARGE + 1
    requires i < |st.recorders| && st.recorders[i].Loaded?
    ensures Safe(Commit(st, i))
  {
    hide Pack, Flushed, Behind;
    var r := st.recorders[i];
    CountUpdate(st.recorders, i, Resting);
    if Pending(r.batch) <= LARGE {
      Increment(st.word);
      FlushersFollow(st, i, st.word + 1);
    } else if st.word == r.batch {
      Small(1);
      FlushersFollow(st, i, 1);
    } else {
      CountUpdate(st.recorders, i, Loaded(st.word, r.stale));
      forall f ensures FlusherOk(Commit(st, i), f) { assert FlusherOk(st, f); }
    }
  }

  lemma Small(k: nat)
    requires k <= LARGE
    ensures Pending(k) == k && Flushed(k) == 0 && Pack(k, 0) == k
  {
  }

  lemma OneBehind(w: nat, w': nat, b: nat, n: nat)
    requires Behind(w, b, n)
    ensures Pending(w') == Pending(w) + 1 ==> Behind(w', b, n + 1)
    ensures w' == 1 && Pending(w) > LARGE ==> Behind(w', b, n + 1)
  {
  }

  lemma FlushKeeps(st: State)
    requires Safe(st)
    ensures Safe(FlushAll(st))
  {
    var st' := FlushAll(st);
    CountSame(st.recorders, st'.recorders);
    forall f ensures FlusherOk(st', f) { assert FlusherOk(st, f); }
  }

  lemma ExchangeKeeps(st: State, f0: nat)
    requires Safe(st)
    requires FlusherOf(st, f0).Done? ==> FlusherOf(st, f0).since <= LARGE
    ensures Safe(Next(st, SExchange(f0)))
  {
    var st' := Next(st, SExchange(f0));
    assert FlusherOk(st, f0);
    if FlusherOf(st, f0).Done? {
      PackIs(Pending(st.word), Pending(st.word));
      forall f ensures FlusherOk(st', f) { assert FlusherOk(st, f); }
    }
  }

  lemma NextKeeps(st: State, step: Step)
    requires Safe(st) && |st.recorders| <= LARGE + 1 && Paced(st, [step])
    ensures Safe(Next(st, step)) && |Next(st, step).recorders| == |st.recorders|
  {
    match step
    case SClear(i) =>
      if i < |st.recorders| { CountUpdate(st.recorders, i, Cleared(true)); }
      forall f ensures FlusherOk(Next(st, step), f) { assert FlusherOk(st, f); }
    case SLoad(i) =>
      if i < |st.recorders| && st.recorders[i].Cleared? {
        CountUpdate(st.recorders, i, Loaded(st.word, st.recorders[i].stale));
      }
      forall f ensures FlusherOk(Next(st, step), f) { assert FlusherOk(st, f); }
    case SCommit(i) => if i < |st.recorders| && st.recorders[i].Loaded? { CommitKeeps(st, i); }
    case SRead(f0) =>
      forall f ensures FlusherOk(Next(st, step), f) { assert FlusherOk(st, f); }
    case SFlush(f0) =>
      FlushKeeps(st);
      forall f ensures FlusherOk(Next(st, step), f) { assert FlusherOk(st, f) && FlusherOk(FlushAll(st), f); }
    case SExchange(f0) => ExchangeKeeps(st, f0);
    case SOwnFlush => FlushKeeps(st);
  }

  lemma {:induction false} RunKeeps(st: State, steps: seq<Step>)
    requires Safe(st) && |st.recorders| <= LARGE + 1 && Paced(st, steps)
    ensures Safe(Run(st, steps)) && |Run(st, steps).recorders| == |st.recorders|
    decreases |steps|
  {
    if steps != [] {
      NextKeeps(st, steps[0]);
      hide Next, Safe;
      RunKeeps(Next(st, steps[0]), steps[1..]);
    }
  }

  lemma {:induction false} NoneArmed(rs: seq<Recorder>)
    requires forall i :: 0 <= i < |rs| ==> rs[i].Resting?
    ensures CountArmed(rs) == 0
  {
    if rs != [] { NoneArmed(rs[..|rs| - 1]); }
  }

  lemma InitSafe(n: nat)
    ensures Safe(Init(n)) && |Init(n).recorders| == n
  {
    hide Pending, Flushed, Pack, CountArmed;
    Small(0);
    NoneArmed(Init(n).recorders);
  }

  // ------------------------------------------------------------------ theorems

  /** With at most 16384 concurrent recorders, and at most 16383 records between a flusher's read
      and its exchange, every unmap recorded since the last flush shows in the word, in every
      interleaving; and the two fields never run into each other. */
  lemma NoFlushIsLost(n: nat, steps: seq<Step>)
    requires n <= LARGE + 1 && Paced(Init(n), steps)
    ensures
      var st := Run(Init(n), steps);
      && (st.exposed > 0 ==> Pending(st.word) != Flushed(st.word))
      && st.word == Pack(Pending(st.word), Flushed(st.word)) && Flushed(st.word) <= Pending(st.word) <= LARGE + n
  {
    InitSafe(n);
    hide Run, Paced, Init, Pack, Flushed;
    RunKeeps(Init(n), steps);
  }

  /** A flush that nobody interferes with settles the word: whatever was pending, nothing is exposed
      afterwards, and nobody starts another flush before the next record. */
  lemma FlushSettles(n: nat, steps: seq<Step>, f: nat, g: nat)
    requires n <= LARGE + 1 && Paced(Init(n), steps) && FlusherOf(Run(Init(n), steps), f).Waiting?
    ensures
      var st := Run(Init(n), steps);
      var st3 := Next(Next(Next(st, SRead(f)), SFlush(f)), SExchange(f));
      && Pending(st3.word) == Flushed(st3.word) == Pending(st.word) && st3.exposed == 0
      && (FlusherOf(st3, g).Waiting? ==> Next(st3, SRead(g)) == st3)
  {
    NoFlushIsLost(n, steps);
    hide Run, Paced, Init, Pending, Flushed, Pack;
    var st := Run(Init(n), steps);
    PackIs(Pending(st.word), Pending(st.word));
  }

  // ------------------------------------------------------ both bounds are tight

  /** Recorder i makes one record on its own. */
  function Record(i: nat): seq<Step> {
    [SClear(i), SLoad(i), SCommit(i)]
  }

  function Records(n: nat): seq<Step> {
    if n == 0 then [] else Records(n - 1) + Record(0)
  }

  lemma {:induction false} RunConcat(st: State, a: seq<Step>, b: seq<Step>)
    ensures Run(st, a + b) == Run(Run(st, a), b)
    decreases |a|
  {
    if a == [] {
      assert a + b == b;
    } else {
      assert (a + b)[1..] == a[1..] + b;
      RunConcat(Next(st, a[0]), a[1..], b);
    }
  }

  /** A single recorder's record, with one flusher between its flush and its exchange. */
  lemma OneRecord(st: State, b: nat, n: nat)
    requires st.recorders == [Resting] && st.flushers == map[0 := Done(b, n)]
    ensures Run(st, Record(0)) == State(
      if Pending(st.word) > LARGE then 1 else st.word + 1, st.exposed + 1, [Resting], map[0 := Done(b, n + 1)])
  {
    var st1 := st.(recorders := [Cleared(true)]);
    var st2 := st.(recorders := [Loaded(st.word, true)]);
    assert Next(st, SClear(0)) == st1;
    assert Next(st1, SLoad(0)) == st2;
    CommitOne(st2, b, n);
    hide Next;
    var st3 := Next(st2, SCommit(0));
    assert Run(st2, [SCommit(0)]) == st3;
    assert Run(st1, [SLoad(0), SCommit(0)]) == st3;
  }

  lemma CommitOne(st: State, b: nat, n: nat)
    requires st.recorders == [Loaded(st.word, true)] && st.flushers == map[0 := Done(b, n)]
    ensures Next(st, SCommit(0)) == State(
      if Pending(st.word) > LARGE then 1 else st.word + 1, st.exposed + 1, [Resting], map[0 := Done(b, n + 1)])
  {
    assert (map f | f in st.flushers :: OneMore(st.flushers[f])) == map[0 := Done(b, n + 1)];
    assert st.recorders[0 := Resting] == [Resting];
  }

  lemma {:induction false} ManyRecords(st: State, b: nat, k: nat)
    requires st == State(1, 0, [Resting], map[0 := Done(b, 0)]) && k <= LARGE
    ensures Run(st, Records(k)) == State(1 + k, k, [Resting], map[0 := Done(b, k)])
  {
    if k > 0 {
      ManyRecords(st, b, k - 1);
      RunConcat(st, Records(k - 1), Record(0));
      assert Pending(k) == k;
      OneRecord(Run(st, Records(k - 1)), b, k - 1);
    }
  }

  /** One record, a flush that is not yet noted in the word, then enough records to come round. */
  function LosingRun(): seq<Step> {
    Record(0) + ([SRead(0), SFlush(0)] + (Records(LARGE) + (Record(0) + [SExchange(0)])))
  }

  /** The bound on records between read and exchange cannot be raised: one more, and a flush is
      lost. */
  lemma LargeIsTheLimit()
    ensures var st := Run(Init(1), LosingRun()); st.exposed == LARGE + 1 && Pending(st.word) == Flushed(st.word)
  {
    hide Run, Records, Pending, Flushed, Pack, Next;
    Small(1);
    FirstRecord();
    var b := State(1, 0, [Resting], map[0 := Done(1, 0)]);
    RunConcat(Init(1), Record(0), [SRead(0), SFlush(0)] + (Records(LARGE) + (Record(0) + [SExchange(0)])));
    RunConcat(State(1, 1, [Resting], map[]), [SRead(0), SFlush(0)], Records(LARGE) + (Record(0) + [SExchange(0)]));
    ManyRecords(b, 1, LARGE);
    RunConcat(b, Records(LARGE), Record(0) + [SExchange(0)]);
    var st := State(1 + LARGE, LARGE, [Resting], map[0 := Done(1, LARGE)]);
    PackIs(1 + LARGE, 0);
    Half();
    OneRecord(st, 1, LARGE);
    RunConcat(st, Record(0), [SExchange(0)]);
    LastExchange();
  }

  lemma Half()
    ensures Pending(1 + LARGE) == 1 + LARGE
  {
  }

  lemma FirstRecord()
    ensures Run(Init(1), Record(0)) == State(1, 1, [Resting], map[])
    ensures Run(State(1, 1, [Resting], map[]), [SRead(0), SFlush(0)]) == State(1, 0, [Resting], map[0 := Done(1, 0)])
  {
    assert Init(1).recorders == [Resting];
    var st1 := Next(Init(1), SClear(0));
    var st2 := Next(st1, SLoad(0));
    assert st2.recorders == [Loaded(0, true)];
    var st3 := Next(st2, SCommit(0));
    assert st3 == State(1, 1, [Resting], map[]);
    assert Run(st2, [SCommit(0)]) == st3;
    assert Run(st1, [SLoad(0), SCommit(0)]) == st3;
    var st4 := Next(st3, SRead(0));
    assert st4 == State(1, 1, [Resting], map[0 := Reading(1, 0)]);
    var st5 := Next(st4, SFlush(0));
    assert st5 == State(1, 0, [Resting], map[0 := Done(1, 0)]);
    assert Run(st4, [SFlush(0)]) == st5;
  }

  lemma LastExchange()
    ensures
      var st := Run(State(1, LARGE + 1, [Resting], map[0 := Done(1, LARGE + 1)]), [SExchange(0)]);
      st.exposed == LARGE + 1 && Pending(st.word) == Flushed(st.word)
  {
    PackIs(1, 1);
  }

  // Too many recorders: all read a pending count that is not yet large, then all increment it.

  function LoadAll(k: nat): seq<Step> {
    if k == 0 then [] else LoadAll(k - 1) + [SClear(k - 1), SLoad(k - 1)]
  }

  function CommitAll(k: nat): seq<Step> {
    if k == 0 then [] else CommitAll(k - 1) + [SCommit(k - 1)]
  }

  function Mixed(n: nat, k: nat, r: Recorder, q: Recorder): (rs: seq<Recorder>)
    ensures |rs| == n && forall i :: 0 <= i < n ==> rs[i] == if i < k then r else q
  {
    seq(n, i => if i < k then r else q)
  }

  lemma {:induction false} AllLoad(n: nat, w: nat, k: nat)
    requires k <= n
    ensures Run(State(w, w, Mixed(n, 0, Resting, Resting), map[]), LoadAll(k))
      == State(w, w, Mixed(n, k, Loaded(w, true), Resting), map[])
  {
    var st := State(w, w, Mixed(n, 0, Resting, Resting), map[]);
    if k == 0 {
      assert Mixed(n, 0, Loaded(w, true), Resting) == Mixed(n, 0, Resting, Resting);
    } else {
      AllLoad(n, w, k - 1);
      RunConcat(st, LoadAll(k - 1), [SClear(k - 1), SLoad(k - 1)]);
      var st1 := State(w, w, Mixed(n, k - 1, Loaded(w, true), Resting), map[]);
      var st2 := Next(st1, SClear(k - 1));
      var st3 := Next(st2, SLoad(k - 1));
      assert st3.recorders == Mixed(n, k, Loaded(w, true), Resting);
      assert Run(st2, [SLoad(k - 1)]) == st3;
      assert Run(st1, [SClear(k - 1), SLoad(k - 1)]) == st3;
    }
  }

  lemma {:induction false} AllCommit(n: nat, w: nat, k: nat)
    requires k <= n && Pending(w) <= LARGE
    ensures Run(State(w, w, Mixed(n, n, Loaded(w, true), Resting), map[]), CommitAll(k))
      == State(w + k, w + k, Mixed(n, k, Resting, Loaded(w, true)), map[])
  {
    hide Pending;
    var st := State(w, w, Mixed(n, n, Loaded(w, true), Resting), map[]);
    if k == 0 {
      assert Mixed(n, 0, Resting, Loaded(w, true)) == Mixed(n, n, Loaded(w, true), Resting);
    } else {
      AllCommit(n, w, k - 1);
      RunConcat(st, CommitAll(k - 1), [SCommit(k - 1)]);
      var st1 := State(w + k - 1, w + k - 1, Mixed(n, k - 1, Resting, Loaded(w, true)), map[]);
      var st2 := Next(st1, SCommit(k - 1));
      assert st2.recorders == Mixed(n, k, Resting, Loaded(w, true));
      assert Run(st1, [SCommit(k - 1)]) == st2;
    }
  }

  /** One recorder among many at work before anything has been flushed. */
  lemma {:induction false} AloneAtFirst(n: nat, k: nat)
    requires n > 0 && k <= LARGE
    ensures Run(Init(n), Records(k)) == State(k, k, Mixed(n, 0, Resting, Resting), map[])
  {
    var rs := Mixed(n, 0, Resting, Resting);
    if k == 0 {
      assert Init(n).recorders == rs;
    } else {
      AloneAtFirst(n, k - 1);
      RunConcat(Init(n), Records(k - 1), Record(0));
      var st := State(k - 1, k - 1, rs, map[]);
      var st1 := Next(st, SClear(0));
      var st2 := Next(st1, SLoad(0));
      assert st2.recorders == rs[0 := Loaded(k - 1, true)];
      Small(k - 1);
      hide Pending;
      var st3 := Next(st2, SCommit(0));
      assert st3.recorders == rs;
      assert Run(st2, [SCommit(0)]) == st3;
      assert Run(st1, [SLoad(0), SCommit(0)]) == st3;
      assert Run(st, Record(0)) == st3;
    }
  }

  /** The bound on recorders cannot be raised either: 16385 of them can all read a pending count
      that is still small, and their increments overflow its 15 bits.  Then pending is 0 again,
      equal to a flushed count that has not moved, and a flush that is needed is lost. */
  lemma RecordersAreTheLimit()
    ensures
      var n := LARGE + 2;
      var st := Run(Init(n), Records(LARGE) + (LoadAll(n) + CommitAll(n)));
      st.exposed == 2 * (LARGE + 1) && Pending(st.word) == Flushed(st.word)
  {
    hide Run, LoadAll, CommitAll, Records;
    var n := LARGE + 2;
    RunConcat(Init(n), Records(LARGE), LoadAll(n) + CommitAll(n));
    AloneAtFirst(n, LARGE);
    AllLoad(n, LARGE, n);
    RunConcat(State(LARGE, LARGE, Mixed(n, 0, Resting, Resting), map[]), LoadAll(n), CommitAll(n));
    AllCommit(n, LARGE, n);
  }
}
