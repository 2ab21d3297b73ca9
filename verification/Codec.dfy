/** Bytes, little-endian integers, VLQ integers, and a bounds-checked cursor. */
module Codec {
  import opened Headers

  type Byte = x: nat | x < 256

  type Bytes = seq<Byte>

  /** A value read off the front of some bytes, and what is left. */
  type Parsed<T> = Option<(T, Bytes)>

  function Power(base: nat, k: nat): nat {
    if k == 0 then 1 else base * Power(base, k - 1)
  }

  lemma Assoc(a: Bytes, b: Bytes, c: Bytes)
    ensures a + b + c == a + (b + c)
  {
  }

  // ---- Plain reads ----

  function Take(bs: Bytes, n: nat): Parsed<Bytes> {
    if n <= |bs| then Some((bs[..n], bs[n..])) else None
  }

  function ReadByte(bs: Bytes): Parsed<Byte> {
    if bs == [] then None else Some((bs[0], bs[1..]))
  }

  // ---- Little-endian ----

  function Le(n: nat, k: nat): (bs: Bytes)
    ensures |bs| == k
  {
    if k == 0 then [] else [n % 256] + Le(n / 256, k - 1)
  }

  function Unle(bs: Bytes): nat {
    if bs == [] then 0 else bs[0] + 256 * Unle(bs[1..])
  }

  lemma {:induction false} LeRoundTrip(n: nat, k: nat)
    requires n < Power(256, k)
    ensures Unle(Le(n, k)) == n
  {
    if k > 0 {
      Quotient(n, Power(256, k - 1));
      LeRoundTrip(n / 256, k - 1);
      assert Le(n, k)[1..] == Le(n / 256, k - 1);
    }
  }

  lemma Quotient(n: nat, m: nat)
    requires n < 256 * m
    ensures n / 256 < m
  {
  }

  function ReadLe(bs: Bytes, k: nat): Parsed<nat> {
    match Take(bs, k)
    case None => None
    case Some((head, rest)) => Some((Unle(head), rest))
  }

  lemma ReadLeWritten(n: nat, k: nat, rest: Bytes)
    requires n < Power(256, k)
    ensures ReadLe(Le(n, k) + rest, k) == Some((n, rest))
  {
    LeRoundTrip(n, k);
    assert (Le(n, k) + rest)[..k] == Le(n, k) && (Le(n, k) + rest)[k..] == rest;
  }

  // ---- VLQ ----

  /** Seven bits a byte, least significant first; the top bit says that more follow. */
  function Vlq(n: nat): Bytes {
    if n < 128 then [n] else [n % 128 + 128] + Vlq(n / 128)
  }

  const MAX_VLQ_BYTES: nat := 10

  const U64: nat := 0x1_0000_0000_0000_0000

  const U32: nat := 0x1_0000_0000

  const U16: nat := 0x1_0000

  function Unvlq(bs: Bytes, left: nat): Parsed<nat>
    decreases left
  {
    if left == 0 || bs == [] then None
    else if bs[0] < 128 then Some((bs[0], bs[1..]))
    else
      match Unvlq(bs[1..], left - 1)
      case None => None
      case Some((high, rest)) => Some((bs[0] - 128 + 128 * high, rest))
  }

  /** At most ten bytes are read into 64 bits, and the value must lie below `bound`. */
  function ReadVlq(bs: Bytes, bound: nat): Parsed<nat> {
    match Unvlq(bs, MAX_VLQ_BYTES)
    case None => None
    case Some((n, rest)) => if n % U64 < bound then Some((n % U64, rest)) else None
  }

  lemma {:induction false} VlqRoundTrip(n: nat, left: nat, rest: Bytes)
    requires left > 0 && n < Power(128, left)
    ensures Unvlq(Vlq(n) + rest, left) == Some((n, rest))
    decreases left
  {
    if n < 128 {
      assert (Vlq(n) + rest)[1..] == rest;
    } else {
      SmallerQuotient(n, Power(128, left - 1));
      assert left > 1 by {
        assert Power(128, 1) == 128;
      }
      VlqRoundTrip(n / 128, left - 1, rest);
      assert (Vlq(n) + rest)[1..] == Vlq(n / 128) + rest;
    }
  }

  lemma SmallerQuotient(n: nat, m: nat)
    requires n < 128 * m
    ensures n / 128 < m
  {
  }

  lemma PowersOf128()
    ensures Power(128, 10) == 0x40_0000_0000_0000_0000
  {
    var p5 := Power(128, 5);
    assert p5 == 0x8_0000_0000 by {
      assert Power(128, 2) == 128 * Power(128, 1);
      assert Power(128, 4) == 128 * Power(128, 3);
    }
    assert Power(128, 7) == 128 * Power(128, 6) && Power(128, 6) == 128 * p5;
    assert Power(128, 10) == 128 * Power(128, 9) && Power(128, 9) == 128 * Power(128, 8) && Power(128, 8) == 128 * Power(128, 7);
  }

  lemma {:induction false} UnvlqNeedsEnd(bs: Bytes, left: nat)
    requires left <= |bs| && forall i :: 0 <= i < left ==> bs[i] >= 128
    ensures Unvlq(bs, left).None?
    decreases left
  {
    if left > 0 {
      UnvlqNeedsEnd(bs[1..], left - 1);
    }
  }

  /** Ten bytes that all say that more follow are no number. */
  lemma OverlongIsRefused(bs: Bytes, bound: nat)
    requires |bs| >= 10 && forall i :: 0 <= i < 10 ==> bs[i] >= 128
    ensures ReadVlq(bs, bound).None?
  {
    UnvlqNeedsEnd(bs, 10);
  }

  /** A number that is too large is refused. */
  lemma TooLargeIsRefused(n: nat, bound: nat, rest: Bytes)
    requires bound <= n < U64
    ensures ReadVlq(Vlq(n) + rest, bound).None?
  {
    FitsTenBytes(n);
    VlqRoundTrip(n, MAX_VLQ_BYTES, rest);
    Unchanged(n, U64);
  }

  lemma VlqExamples()
    ensures Vlq(0) == [0] && Vlq(127) == [127] && Vlq(128) == [128, 1] && Vlq(300) == [172, 2]
  {
  }

  /** Every value within range reads back as itself. */
  lemma ReadVlqWritten(n: nat, bound: nat, rest: Bytes)
    requires n < bound <= U64
    ensures ReadVlq(Vlq(n) + rest, bound) == Some((n, rest))
  {
    FitsTenBytes(n);
    VlqRoundTrip(n, MAX_VLQ_BYTES, rest);
    Unchanged(n, U64);
  }

  lemma FitsTenBytes(n: nat)
    requires n < U64
    ensures n < Power(128, MAX_VLQ_BYTES)
  {
    PowersOf128();
  }

  lemma Unchanged(n: nat, m: nat)
    requires n < m
    ensures n % m == n
  {
  }

  lemma {:induction false} VlqLength(n: nat)
    ensures n < 128 ==> |Vlq(n)| == 1
    ensures 128 <= n < 16_384 ==> |Vlq(n)| == 2
    ensures 16_384 <= n < 2_097_152 ==> |Vlq(n)| == 3
    ensures n >= 2_097_152 ==> |Vlq(n)| >= 4
  {
    if n >= 128 {
      VlqLength(n / 128);
    }
  }

  // ---- Reads are local: more input does not change what is read ----

  lemma TakeMore(bs: Bytes, n: nat, more: Bytes)
    requires Take(bs, n).Some?
    ensures Take(bs + more, n) == Some((Take(bs, n).value.0, Take(bs, n).value.1 + more))
  {
    assert (bs + more)[..n] == bs[..n] && (bs + more)[n..] == bs[n..] + more;
  }

  lemma ReadLeMore(bs: Bytes, k: nat, more: Bytes)
    requires ReadLe(bs, k).Some?
    ensures ReadLe(bs + more, k) == Some((ReadLe(bs, k).value.0, ReadLe(bs, k).value.1 + more))
  {
    TakeMore(bs, k, more);
  }

  lemma ReadByteMore(bs: Bytes, more: Bytes)
    requires ReadByte(bs).Some?
    ensures ReadByte(bs + more) == Some((ReadByte(bs).value.0, ReadByte(bs).value.1 + more))
  {
    assert (bs + more)[1..] == bs[1..] + more;
  }

  /** Reading with `dec` does not depend on what follows. */
  ghost predicate LocalAt<T>(dec: Bytes -> Parsed<T>, bs: Bytes, more: Bytes) {
    dec(bs).Some? ==> dec(bs + more) == Some((dec(bs).value.0, dec(bs).value.1 + more))
  }

  ghost predicate Local<T>(dec: Bytes -> Parsed<T>, more: Bytes) {
    forall bs: Bytes {:trigger LocalAt(dec, bs, more)} :: LocalAt(dec, bs, more)
  }

  /** No proper prefix of something that is read to its end can be read. */
  lemma PrefixFails<T>(dec: Bytes -> Parsed<T>, all: Bytes, k: nat)
    requires k < |all| && dec(all).Some? && dec(all).value.1 == [] && LocalAt(dec, all[..k], all[k..])
    ensures dec(all[..k]).None?
  {
    assert all[..k] + all[k..] == all;
  }

  // ---- Lists ----

  function WriteAll<T>(enc: T -> Bytes, xs: seq<T>): Bytes {
    if xs == [] then [] else WriteAll(enc, xs[..|xs| - 1]) + enc(Last(xs))
  }

  function ReadAll<T>(dec: Bytes -> Parsed<T>, bs: Bytes, n: nat): Parsed<seq<T>> {
    if n == 0 then Some(([], bs))
    else
      match ReadAll(dec, bs, n - 1)
      case None => None
      case Some((xs, rest)) =>
        match dec(rest)
        case None => None
        case Some((x, tail)) => Some((xs + [x], tail))
  }

  lemma ReadAllStep<T>(dec: Bytes -> Parsed<T>, bs: Bytes, n: nat, xs: seq<T>, mid: Bytes)
    requires ReadAll(dec, bs, n) == Some((xs, mid))
    ensures ReadAll(dec, bs, n + 1) == if dec(mid).Some? then Some((xs + [dec(mid).value.0], dec(mid).value.1)) else None
  {
  }

  lemma {:induction false} ReadAllStuck<T>(dec: Bytes -> Parsed<T>, bs: Bytes, k: nat, n: nat)
    requires k <= n && ReadAll(dec, bs, k).None?
    ensures ReadAll(dec, bs, n).None?
    decreases n
  {
    if k < n {
      ReadAllStuck(dec, bs, k, n - 1);
    }
  }

  lemma WriteAllPush<T>(enc: T -> Bytes, xs: seq<T>, i: nat)
    requires i < |xs|
    ensures WriteAll(enc, xs[..i + 1]) == WriteAll(enc, xs[..i]) + enc(xs[i])
  {
    assert xs[..i + 1][..i] == xs[..i] && Last(xs[..i + 1]) == xs[i];
  }

  /** `dec` undoes `enc` on `x`, whatever follows. */
  ghost predicate Undoes<T(!new)>(enc: T -> Bytes, dec: Bytes -> Parsed<T>, x: T) {
    forall rest: Bytes {:trigger enc(x) + rest} :: dec(enc(x) + rest) == Some((x, rest))
  }

  /** Elements that can be read back one by one can be read back together. */
  lemma {:induction false} ReadAllWritten<T(!new)>(enc: T -> Bytes, dec: Bytes -> Parsed<T>, xs: seq<T>, rest: Bytes)
    requires forall i {:trigger xs[i]} :: 0 <= i < |xs| ==> Undoes(enc, dec, xs[i])
    ensures ReadAll(dec, WriteAll(enc, xs) + rest, |xs|) == Some((xs, rest))
    decreases |xs|
  {
    if xs == [] {
      assert WriteAll(enc, xs) + rest == rest;
    } else {
      var n := |xs| - 1;
      var init, last := xs[..n], xs[n];
      assert forall i {:trigger init[i]} :: 0 <= i < n ==> init[i] == xs[i];
      ReadAllWritten(enc, dec, init, enc(last) + rest);
      Assoc(WriteAll(enc, init), enc(last), rest);
      assert Undoes(enc, dec, last);
      assert xs == init + [last];
    }
  }

  lemma {:induction false} ReadAllMore<T>(dec: Bytes -> Parsed<T>, bs: Bytes, n: nat, more: Bytes)
    requires Local(dec, more)
    requires ReadAll(dec, bs, n).Some?
    ensures ReadAll(dec, bs + more, n) == Some((ReadAll(dec, bs, n).value.0, ReadAll(dec, bs, n).value.1 + more))
    decreases n
  {
    if n > 0 {
      ReadAllMore(dec, bs, n - 1, more);
      assert LocalAt(dec, ReadAll(dec, bs, n - 1).value.1, more);
    }
  }

  /** A position in a buffer that never runs past its end. */
  class Cursor {
    const buf: Bytes
    var pos: nat

    constructor (buf: Bytes)
      ensures this.buf == buf && Valid() && Rest() == buf
    {
      this.buf, pos := buf, 0;
    }

    ghost predicate Valid()
      reads this
    {
      pos <= |buf|
    }

    ghost function Rest(): Bytes
      requires Valid()
      reads this
    {
      buf[pos..]
    }

    method TakeBytes(n: nat) returns (r: Option<Bytes>)
      requires Valid()
      modifies this
      ensures Valid()
      ensures match Take(old(Rest()), n)
              case None => r.None? && Rest() == old(Rest())
              case Some((head, rest)) => r == Some(head) && Rest() == rest
    {
      if pos + n > |buf| {
        return None;
      }
      r := Some(buf[pos..pos + n]);
      assert buf[pos..][..n] == buf[pos..pos + n] && buf[pos..][n..] == buf[pos + n..];
      pos := pos + n;
    }

    method TakeByte() returns (r: Option<Byte>)
      requires Valid()
      modifies this
      ensures Valid()
      ensures match ReadByte(old(Rest()))
              case None => r.None? && Rest() == old(Rest())
              case Some((b, rest)) => r == Some(b) && Rest() == rest
    {
      if pos == |buf| {
        return None;
      }
      r := Some(buf[pos]);
      assert buf[pos..][1..] == buf[pos + 1..];
      pos := pos + 1;
    }

    method TakeLe(k: nat) returns (r: Option<nat>)
      requires Valid()
      modifies this
      ensures Valid()
      ensures match ReadLe(old(Rest()), k)
              case None => r.None? && Rest() == old(Rest())
              case Some((n, rest)) => r == Some(n) && Rest() == rest
    {
      var bs := TakeBytes(k);
      r := if bs.Some? then Some(Unle(bs.value)) else None;
    }

    /** The position advances only past a value that was accepted. */
    method TakeVlq(bound: nat) returns (r: Option<nat>)
      requires Valid()
      modifies this
      ensures Valid()
      ensures match ReadVlq(old(Rest()), bound)
              case None => r.None? && Rest() == old(Rest())
              case Some((n, rest)) => r == Some(n) && Rest() == rest
    {
      var read := ReadVlq(buf[pos..], bound);
      if read.None? {
        return None;
      }
      UnvlqSuffix(buf[pos..], MAX_VLQ_BYTES);
      ghost var rest := read.value.1;
      pos := |buf| - |read.value.1|;
      assert buf[pos..] == rest;
      r := Some(read.value.0);
    }
  }

  lemma {:induction false} UnvlqSuffix(bs: Bytes, left: nat)
    requires Unvlq(bs, left).Some?
    ensures var rest := Unvlq(bs, left).value.1; |rest| < |bs| && rest == bs[|bs| - |rest|..]
    decreases left
  {
    if bs[0] >= 128 {
      UnvlqSuffix(bs[1..], left - 1);
    }
  }
}
