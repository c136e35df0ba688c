/** Bytes, byte order and the input stream of the RDB format. */
module RdbBytes {
  import opened Wrappers

  type byte = x: int | 0 <= x < 256
  type Bytes = seq<byte>

  const U32 := 0x1_0000_0000
  const U64 := 0x1_0000_0000_0000_0000

  type uint64 = x: int | 0 <= x < U64
  type int64 = x: int | -0x8000_0000_0000_0000 <= x < 0x8000_0000_0000_0000

  // -------------------------------------------------------------- byte order

  function Pow256(k: nat): (p: nat)
    ensures p > 0
  {
    if k == 0 then 1 else 256 * Pow256(k - 1)
  }

  function BigEndian(n: nat, k: nat): (s: Bytes)
    ensures |s| == k
  {
    if k == 0 then [] else BigEndian(n / 256, k - 1) + [n % 256]
  }

  function FromBigEndian(s: Bytes): nat {
    if s == [] then 0 else FromBigEndian(s[..|s| - 1]) * 256 + s[|s| - 1]
  }

  function LittleEndian(n: nat, k: nat): (s: Bytes)
    ensures |s| == k
  {
    if k == 0 then [] else [n % 256] + LittleEndian(n / 256, k - 1)
  }

  function FromLittleEndian(s: Bytes): nat {
    if s == [] then 0 else s[0] + 256 * FromLittleEndian(s[1..])
  }

  lemma {:induction false} BigEndianInverts(n: nat, k: nat)
    requires n < Pow256(k)
    ensures FromBigEndian(BigEndian(n, k)) == n
  {
    if k > 0 {
      BigEndianInverts(n / 256, k - 1);
      var s := BigEndian(n, k);
      assert s[..k - 1] == BigEndian(n / 256, k - 1);
    }
  }

  lemma {:induction false} LittleEndianInverts(n: nat, k: nat)
    requires n < Pow256(k)
    ensures FromLittleEndian(LittleEndian(n, k)) == n
  {
    if k > 0 {
      LittleEndianInverts(n / 256, k - 1);
      assert LittleEndian(n, k)[1..] == LittleEndian(n / 256, k - 1);
    }
  }

  lemma {:induction false} LittleEndianBound(s: Bytes)
    ensures FromLittleEndian(s) < Pow256(|s|)
  {
    if s != [] { LittleEndianBound(s[1..]); }
  }

  lemma {:induction false} BigEndianBound(s: Bytes)
    ensures FromBigEndian(s) < Pow256(|s|)
  {
    if s != [] { BigEndianBound(s[..|s| - 1]); }
  }

  lemma Powers()
    ensures Pow256(1) == 0x100 && Pow256(2) == 0x1_0000 && Pow256(4) == U32 && Pow256(8) == U64
  {
    assert Pow256(3) == 0x100_0000;
    assert Pow256(5) == 256 * U32;
    assert Pow256(6) == 0x1_0000 * U32;
    assert Pow256(7) == 0x100_0000 * U32;
  }

  /** Two's complement of an integer in k bytes. */
  function Unsigned(v: int, k: nat): nat {
    v % Pow256(k)
  }

  function Signed(n: nat, k: nat): int {
    if n >= Pow256(k) / 2 then n - Pow256(k) else n
  }

  // ---------------------------------------------------------------- the input

  /** What is left to read, and the sticky error flag of the stream. */
  datatype In = In(rest: Bytes, bad: bool)

  /** rioRead: a short read sets the flag, and after that nothing is read any more. */
  function Read(i: In, n: nat): (r: (Option<Bytes>, In))
    ensures |r.1.rest| <= |i.rest|
    ensures r.0.Some? ==> |r.0.value| == n && |r.1.rest| == |i.rest| - n && !r.1.bad && !i.bad
    ensures r.0.None? ==> r.1.bad
  {
    if i.bad || |i.rest| < n then (None, In(i.rest, true))
    else (Some(i.rest[..n]), In(i.rest[n..], false))
  }

  /** Reading what has just been written. */
  lemma ReadBack(s: Bytes, rest: Bytes)
    ensures Read(In(s + rest, false), |s|) == (Some(s), In(rest, false))
  {
    assert (s + rest)[..|s|] == s && (s + rest)[|s|..] == rest;
  }

  // ---------------------------------------------------------- times and doubles

  /** rdbSaveMillisecondTime. */
  function SaveTime(t: int64): Bytes {
    LittleEndian(Unsigned(t, 8), 8)
  }

  const LLONG_MAX: int64 := 0x7FFF_FFFF_FFFF_FFFF

  /** rdbLoadMillisecondTime; a short read gives LLONG_MAX and sets the flag. */
  function LoadTime(i: In): (r: (int64, In))
    ensures |r.1.rest| <= |i.rest|
    ensures !r.1.bad ==> |r.1.rest| == |i.rest| - 8
  {
    var (s, i1) := Read(i, 8);
    if s.None? then (LLONG_MAX, i1)
    else
      LittleEndianBound(s.value);
      Powers();
      (Signed(FromLittleEndian(s.value), 8), i1)
  }

  lemma TimeRoundTrip(t: int64, rest: Bytes)
    ensures LoadTime(In(SaveTime(t) + rest, false)) == (t, In(rest, false))
  {
    Powers();
    ReadBack(SaveTime(t), rest);
    LittleEndianInverts(Unsigned(t, 8), 8);
  }
}
