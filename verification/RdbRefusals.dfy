/** What a load refuses, on any input at all, told from the bytes: the magic and the version, the
    opcodes, the keys that come twice, and the checksum. */
module RdbRefusals {
  import opened Wrappers
  import opened RdbBytes
  import opened RdbStrings
  import opened RdbStream
  import opened RdbObjects
  import opened RdbFile
  import opened RdbTrace

  // ---------------------------------------------------------------- the version

  predicate AllDigits(s: Bytes) {
    forall i :: 0 <= i < |s| ==> IsDigit(s[i])
  }

  function Decimal(digits: Bytes): nat
    requires AllDigits(digits)
  {
    if digits == [] then 0 else Decimal(digits[..|digits| - 1]) * 10 + (digits[|digits| - 1] as nat) - 48
  }

  lemma {:induction false} PrefixIs(before: Bytes, digits: Bytes, tail: Bytes)
    requires AllDigits(before + digits) && AllDigits(before) && (tail == [] || !IsDigit(tail[0]))
    ensures Prefix(digits + tail, Decimal(before)) == Decimal(before + digits)
    decreases |digits|
  {
    if digits == [] {
      assert digits + tail == tail && before + digits == before;
    } else {
      var more := before + [digits[0]];
      assert (before + digits)[|before|] == digits[0];
      assert more[..|before|] == before && more + digits[1..] == before + digits;
      assert (digits + tail)[1..] == digits[1..] + tail;
      PrefixIs(more, digits[1..], tail);
    }
  }

  lemma SignedIs(sign: Bytes, digits: Bytes, tail: Bytes)
    requires sign in [[], [43], [45]] && AllDigits(digits) && (tail == [] || !IsDigit(tail[0]))
    requires sign == [] && digits == [] && tail != [] ==> !IsBlank(tail[0]) && tail[0] != 43 && tail[0] != 45
    ensures Version(sign + (digits + tail)) == if sign == [45] then 0 - Decimal(digits) else Decimal(digits)
  {
    var s := sign + (digits + tail);
    assert [] + digits == digits;
    PrefixIs([], digits, tail);
    hide Prefix, Decimal;
    if sign == [] {
      assert s == digits + tail;
    } else {
      assert s[0] == sign[0] && s[1..] == digits + tail;
    }
  }

  /** The version is the decimal that follows the blanks and the sign, whatever comes after it. */
  lemma {:induction false} VersionIs(blanks: Bytes, sign: Bytes, digits: Bytes, tail: Bytes)
    requires (forall b :: b in blanks ==> IsBlank(b)) && sign in [[], [43], [45]]
    requires AllDigits(digits) && (tail == [] || !IsDigit(tail[0]))
    requires sign == [] && digits == [] && tail != [] ==> !IsBlank(tail[0]) && tail[0] != 43 && tail[0] != 45
    ensures Version(blanks + (sign + (digits + tail)))
      == if sign == [45] then 0 - Decimal(digits) else Decimal(digits)
    decreases |blanks|
  {
    hide Prefix, Decimal, AllDigits;
    var t := sign + (digits + tail);
    if blanks != [] {
      assert (blanks + t)[1..] == blanks[1..] + t && (blanks + t)[0] == blanks[0];
      VersionIs(blanks[1..], sign, digits, tail);
    } else {
      assert blanks + t == t;
      SignedIs(sign, digits, tail);
    }
  }

  // ----------------------------------------------------------------- the opcodes

  /** An opcode that cannot be read, a database that is not there, or a key that is there already. */
  predicate Refused(c: Config, st: State, op: Op) {
    || op.Broken?
    || (op.Select? && op.id >= c.dbnum)
    || (op.Record? && op.content.Some? && !Expired(c, st.attrs.expire) && !c.allowDup && op.key in Keys(st, st.db))
  }

  lemma RecordRefuses(c: Config, kind: nat, i: In, st: State)
    ensures
      var op := RecordAt(c.env, kind, i).0;
      (op.Record? || op.Broken?) && (LoadRecord(c, kind, i, st).Error? <==> Refused(c, st, op))
  {
    hide LoadString, LoadObject;
  }

  lemma StepRefuses(c: Config, i: In, st: State)
    ensures Step(c, i, st).Error? <==> Refused(c, st, OpAt(c.env, i).0)
  {
    hide Read, LoadLen, LoadString, LoadTime, LoadRecord, Seconds, RecordAt, AsLongLong;
    var (b, i1) := Read(i, 1);
    if b.Some? { RecordRefuses(c, b.value[0], i1, st); }
  }

  /** Opcode k is accepted: a database that is selected exists, and no key is added that is there
      already, from before the load or from an earlier record, unless duplicates are allowed. */
  ghost predicate Accepted(c: Config, was: map<nat, map<Bytes, Entry>>, ops: seq<Op>, k: nat)
    requires k < |ops|
  {
    && (ops[k].Select? ==> ops[k].id < c.dbnum)
    && (!c.allowDup ==> forall n: nat, key: Bytes :: Adds(c, ops, k, n, key) ==>
          Find(was, n, key).None? && forall j :: 0 <= j < k ==> !Adds(c, ops, j, n, key))
  }

  lemma {:induction false} LatestNone(c: Config, ops: seq<Op>, n: nat, key: Bytes)
    ensures Latest(c, ops, n, key).None? <==> forall j :: 0 <= j < |ops| ==> !Adds(c, ops, j, n, key)
    decreases |ops|
  {
    if ops != [] {
      var k := |ops| - 1;
      LatestNone(c, ops[..k], n, key);
      forall j | 0 <= j < k ensures Adds(c, ops[..k], j, n, key) == Adds(c, ops, j, n, key) {
        assert ops[..k][..j] == ops[..j];
      }
    }
  }

  lemma AddsBefore(c: Config, all: seq<Op>, m: nat, n: nat, key: Bytes)
    requires m <= |all|
    ensures forall j :: 0 <= j < m ==> Adds(c, all[..m], j, n, key) == Adds(c, all, j, n, key)
  {
    forall j | 0 <= j < m ensures Adds(c, all[..m], j, n, key) == Adds(c, all, j, n, key) {
      assert all[..m][..j] == all[..j];
    }
  }

  /** The loader refuses the opcode it reads exactly if it is not accepted after those before it. */
  lemma RefusedIs(c: Config, was: map<nat, map<Bytes, Entry>>, all: seq<Op>, m: nat, st: State)
    requires m < |all| && After(c, was, all[..m], st) && !all[m].Broken?
    ensures Refused(c, st, all[m]) <==> !Accepted(c, was, all, m)
  {
    var ops, op := all[..m], all[m];
    hide Expired, Since, Selected, Latest;
    forall n: nat, key: Bytes | Adds(c, all, m, n, key)
      ensures n == st.db && key == op.key
      ensures key in Keys(st, st.db) <==> Find(was, n, key).Some? || exists j :: 0 <= j < m && Adds(c, all, j, n, key)
    {
      assert Find(st.dbs, n, key) == Found(c, was, ops, n, key);
      LatestNone(c, ops, n, key);
      AddsBefore(c, all, m, n, key);
    }
    if op.Record? && op.content.Some? && !Expired(c, st.attrs.expire) {
      assert Adds(c, all, m, st.db, op.key);
    }
  }

  ghost predicate AllAccepted(c: Config, was: map<nat, map<Bytes, Entry>>, ops: seq<Op>, m: nat) {
    forall k :: m <= k < |ops| ==> Accepted(c, was, ops, k)
  }

  lemma OneThenAll(c: Config, was: map<nat, map<Bytes, Entry>>, ops: seq<Op>, m: nat)
    requires m < |ops|
    ensures AllAccepted(c, was, ops, m) <==> Accepted(c, was, ops, m) && AllAccepted(c, was, ops, m + 1)
  {
    hide Accepted;
  }

  /** From any point on: the loop comes to an end exactly if the bytes have one and every opcode up
      to there is accepted. */
  lemma {:induction false} LoopIs(c: Config, was: map<nat, map<Bytes, Entry>>, ops: seq<Op>, i: In, st: State)
    requires After(c, was, ops, st)
    ensures
      var all := ops + Ops(c.env, i);
      Loop(c, i, st).Some? <==> End(c.env, i).Some? && AllAccepted(c, was, all, |ops|)
    decreases |i.rest|
  {
    hide Step, OpAt, After, Accepted, Refused;
    var op := OpAt(c.env, i).0;
    var all := ops + Ops(c.env, i);
    StepReads(c, i, st);
    StepRefuses(c, i, st);
    if op.Broken? {
      BrokenRefuses(c, st, op);
    } else if op.Finish? {
      FinishAccepts(c, st, op);
    } else {
      var i1 := OpAt(c.env, i).1;
      assert all == (ops + [op]) + Ops(c.env, i1) && all[|ops|] == op && all[..|ops|] == ops;
      RefusedIs(c, was, all, |ops|, st);
      OneThenAll(c, was, all, |ops|);
      hide AllAccepted;
      if Step(c, i, st).Continue? {
        StepFollows(c, was, ops, i, st);
        LoopIs(c, was, ops + [op], i1, Step(c, i, st).st);
      }
    }
  }

  lemma BrokenRefuses(c: Config, st: State, op: Op)
    requires op.Broken?
    ensures Refused(c, st, op)
  {
  }

  lemma FinishAccepts(c: Config, st: State, op: Op)
    requires op.Finish?
    ensures !Refused(c, st, op)
  {
  }

  // ------------------------------------------------------------------- the file

  const REDIS: Bytes := [82, 69, 68, 73, 83]

  /** The eight bytes after the end of what has been read so far are 0 or its checksum. */
  predicate SumFits(file: Bytes, rest: Bytes, crc: Option<Bytes -> uint64>)
    requires |rest| <= |file|
  {
    && |rest| >= 8
    && (crc.Some? ==>
          var sum := FromLittleEndian(rest[..8]);
          sum == 0 || sum == crc.value(file[..|file| - |rest|]))
  }

  lemma FinishIsRead(e: Env, i: In)
    ensures OpAt(e, i).0.Finish? ==> !OpAt(e, i).1.bad && |OpAt(e, i).1.rest| <= |i.rest|
  {
    hide LoadLen, LoadString, LoadTime, Seconds, RecordAt, AsLongLong;
    var (b, i1) := Read(i, 1);
    hide Read;
    if b.Some? && b.value[0] < OP_SLOT_INFO { RecordIsNoEnd(e, b.value[0], i1); }
  }

  lemma RecordIsNoEnd(e: Env, kind: nat, i: In)
    ensures !RecordAt(e, kind, i).0.Finish?
  {
    hide LoadString, LoadObject;
  }

  /** The end lies in the file. */
  lemma {:induction false} EndIsInside(e: Env, i: In)
    requires End(e, i).Some?
    ensures |End(e, i).value.rest| <= |i.rest| && !End(e, i).value.bad
    decreases |i.rest|
  {
    hide OpAt;
    FinishIsRead(e, i);
    var (op, i1) := OpAt(e, i);
    if !op.Broken? && !op.Finish? { EndIsInside(e, i1); }
  }

  /** What loads, on any file and whatever the databases held before: exactly a file that starts with
      REDIS and a version from 1 to 12, whose opcodes can be read up to an end, name databases that
      exist and add no key twice unless that is allowed; and from version 5 on, eight bytes follow
      the end, which are 0 or the checksum of all that comes before them, if checksums are in use. */
  lemma LoadsExactly(c: Config, file: Bytes, was: map<nat, map<Bytes, Entry>>)
    ensures LoadInto(c, file, was).Some? <==>
      && |file| >= 9 && file[..5] == REDIS && 1 <= Version(file[5..9]) <= 12
      && var i := In(file[9..], false);
      && End(c.env, i).Some?
      && (forall k :: 0 <= k < |Ops(c.env, i)| ==> Accepted(c, was, Ops(c.env, i), k))
      && (Version(file[5..9]) >= 5 ==>
            |End(c.env, i).value.rest| <= |file| && SumFits(file, End(c.env, i).value.rest, c.crc))
  {
    hide Loop, Ops, End, Accepted, FromLittleEndian, Version;
    if |file| >= 9 {
      var i, st := In(file[9..], false), State(was, 0, NO_ATTRS);
      assert file[..9][..5] == file[..5] && file[..9][5..] == file[5..9];
      StartAfter(c, was);
      LoopIs(c, was, [], i, st);
      assert AllAccepted(c, was, Ops(c.env, i), 0) <==>
        forall k :: 0 <= k < |Ops(c.env, i)| ==> Accepted(c, was, Ops(c.env, i), k);
      assert [] + Ops(c.env, i) == Ops(c.env, i);
      assert Read(In(file, false), 9) == (Some(file[..9]), i);
      if Loop(c, i, st).Some? {
        EndFollows(c, i, st);
        EndIsInside(c.env, i);
        var j := End(c.env, i).value;
        assert |j.rest| >= 8 ==> Read(j, 8).0 == Some(j.rest[..8]);
      }
    }
  }

  lemma {:induction false} LittleEndianOnto(s: Bytes)
    ensures LittleEndian(FromLittleEndian(s), |s|) == s
  {
    if s != [] {
      var n := FromLittleEndian(s[1..]);
      LittleEndianOnto(s[1..]);
      assert FromLittleEndian(s) == s[0] + 256 * n;
      assert FromLittleEndian(s) % 256 == s[0] && FromLittleEndian(s) / 256 == n;
      hide FromLittleEndian;
      assert LittleEndian(FromLittleEndian(s), |s|) == [s[0]] + s[1..];
    }
  }

  /** A saved file whose body has been kept but not what follows it: it loads exactly if at least
      eight bytes follow and the first eight are all 0 or the checksum of the body, or checksums are
      not in use. */
  lemma SavedBodyNeedsItsSum(c: Config, f: File, tail: Bytes)
    requires LzfInverts(c.env.z.lzf) && FileOk(c, f)
    ensures FileFits(c.env, f)
    ensures LoadFile(c, SaveBody(c.env, f) + tail).Some? <==>
      && |tail| >= 8
      && (c.crc.Some? ==>
            || tail[..8] == [0, 0, 0, 0, 0, 0, 0, 0]
            || tail[..8] == LittleEndian(c.crc.value(SaveBody(c.env, f)), 8))
  {
    hide SaveAux, SaveDbs, AddDbs, Loop, Magic, Version, DbOk, DbFits, AuxFits, SaveBody, LittleEndian,
      FromLittleEndian, DistinctDbs;
    FileIsFit(c, f);
    var body := SaveBody(c.env, f);
    BodyLoop(c, f, tail);
    BodySplits(c.env, f, tail);
    MagicReads(SaveAux(c.env.z, f.aux) + (SaveDbs(c.env, f.dbs) + ([OP_EOF] + tail)));
    assert (body + tail)[..|body + tail| - |tail|] == body;
    if |tail| >= 8 {
      SumIs(tail[..8], 0);
      SumIs(tail[..8], if c.crc.Some? then c.crc.value(body) else 0);
      NoSum();
    }
  }

  lemma SumIs(s: Bytes, n: uint64)
    requires |s| == 8
    ensures FromLittleEndian(s) == n <==> s == LittleEndian(n, 8)
  {
    Powers();
    LittleEndianInverts(n, 8);
    LittleEndianOnto(s);
  }

  lemma NoSum()
    ensures LittleEndian(0, 8) == [0, 0, 0, 0, 0, 0, 0, 0]
  {
    assert LittleEndian(0, 4) == [0, 0, 0, 0];
    assert LittleEndian(0, 6) == [0, 0] + LittleEndian(0, 4);
  }
}
