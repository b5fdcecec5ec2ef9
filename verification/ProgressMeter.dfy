/** The sliding window behind the transfer rate: five slots of a quarter second
    that are shifted in place. Times are in nanoseconds of a steady clock, byte
    counts are 64-bit and wrap around. */
module ProgressMeter {
  const U64: nat := 0x1_0000_0000_0000_0000
  const MILLISECOND: nat := 1_000_000
  const SECOND: nat := 1_000_000_000

  /** Bytes recorded and the number of the bucket they belong to. */
  datatype Record = Record(bytes: nat, bucket: nat)

  /** A 64-bit count wraps around. */
  function Wrap(n: nat): nat { if n < U64 then n else Wrap(n - U64) }

  lemma {:induction false} WrapAdd(a: nat, b: nat)
    ensures Wrap(Wrap(a) + b) == Wrap(a + b)
  {
    if a >= U64 {
      WrapAdd(a - U64, b);
    }
  }

  lemma {:induction false} WrapIsModulo(n: nat)
    ensures Wrap(n) == n % 0x1_0000_0000_0000_0000
  {
    if n >= U64 {
      WrapIsModulo(n - U64);
    }
  }

  /** Whole quarter seconds in a duration. */
  function Buckets(duration: nat): nat {
    if duration < 250 * MILLISECOND then 0 else 1 + Buckets(duration - 250 * MILLISECOND)
  }

  /** The shift as computed: milliseconds capped at 1250, then divided. */
  function Shift(duration: nat): nat {
    var elapsed := duration / MILLISECOND;
    (if elapsed < 1250 then elapsed else 1250) / 250
  }

  lemma {:induction false} BucketsByDivision(duration: nat)
    ensures Buckets(duration) == duration / MILLISECOND / 250
    ensures Buckets(duration) * 250 * MILLISECOND <= duration
  {
    if duration >= 250 * MILLISECOND {
      BucketsByDivision(duration - 250 * MILLISECOND);
    }
  }

  lemma ShiftIsCappedBuckets(duration: nat)
    ensures Shift(duration) == if Buckets(duration) < 5 then Buckets(duration) else 5
  {
    BucketsByDivision(duration);
  }

  // ------------------------------------------------------------ the exact history

  function Total(log: seq<Record>): nat {
    if log == [] then 0 else Total(log[..|log| - 1]) + log[|log| - 1].bytes
  }

  /** Bytes recorded in one bucket. */
  function In(log: seq<Record>, bucket: int): nat {
    if log == [] then 0
    else In(log[..|log| - 1], bucket) + if log[|log| - 1].bucket == bucket then log[|log| - 1].bytes else 0
  }

  /** Bytes recorded before a bucket. */
  function Before(log: seq<Record>, bucket: int): nat {
    if log == [] then 0
    else Before(log[..|log| - 1], bucket) + if log[|log| - 1].bucket < bucket then log[|log| - 1].bytes else 0
  }

  /** Bytes of the four buckets, one second, before bucket n. */
  function LastSecond(log: seq<Record>, n: int): nat {
    In(log, n - 4) + In(log, n - 3) + In(log, n - 2) + In(log, n - 1)
  }

  predicate UpTo(log: seq<Record>, bucket: nat) { forall i | 0 <= i < |log| :: log[i].bucket <= bucket }

  lemma Appended(log: seq<Record>, r: Record, b: int)
    ensures Total(log + [r]) == Total(log) + r.bytes
    ensures In(log + [r], b) == In(log, b) + if r.bucket == b then r.bytes else 0
    ensures Before(log + [r], b) == Before(log, b) + if r.bucket < b then r.bytes else 0
  {
    assert (log + [r])[..|log|] == log;
  }

  lemma {:induction false} NothingBeyond(log: seq<Record>, bucket: nat, b: int)
    requires UpTo(log, bucket) && b > bucket
    ensures In(log, b) == 0
  {
    if log != [] {
      NothingBeyond(log[..|log| - 1], bucket, b);
    }
  }

  lemma {:induction false} NothingNegative(log: seq<Record>, b: int)
    requires b < 0
    ensures In(log, b) == 0 && Before(log, b + 1) == 0
  {
    if log != [] {
      NothingNegative(log[..|log| - 1], b);
    }
  }

  /** Every byte is in one of the last five buckets or was shifted out before. */
  lemma {:induction false} NothingIsLost(log: seq<Record>, bucket: nat)
    requires UpTo(log, bucket)
    ensures Total(log) == Before(log, bucket - 4) + In(log, bucket - 4) + In(log, bucket - 3) + In(log, bucket - 2)
                          + In(log, bucket - 1) + In(log, bucket)
  {
    if log != [] {
      NothingIsLost(log[..|log| - 1], bucket);
    }
  }

  // ----------------------------------------------------------------- the window

  /** Slot 4 - j holds the bytes recorded j buckets ago. */
  function Histogram(log: seq<Record>, bucket: int): seq<nat> {
    [Wrap(In(log, bucket - 4)), Wrap(In(log, bucket - 3)), Wrap(In(log, bucket - 2)),
     Wrap(In(log, bucket - 1)), Wrap(In(log, bucket))]
  }

  lemma HistogramAt(log: seq<Record>, bucket: int, i: nat)
    requires i < 5
    ensures Histogram(log, bucket)[i] == Wrap(In(log, bucket - 4 + i))
  {
  }

  function Moved(w: seq<nat>, shift: nat): (w': seq<nat>)
    requires |w| == 5 && shift <= 5
    ensures |w'| == 5
  {
    w[shift..] + seq(shift, _ => 0)
  }

  /** Shifting by the capped amount is right for any number of buckets passed. */
  lemma MovedHistogram(log: seq<Record>, bucket: nat, passed: nat)
    requires UpTo(log, bucket)
    ensures Moved(Histogram(log, bucket), if passed < 5 then passed else 5) == Histogram(log, bucket + passed)
  {
    var shift := if passed < 5 then passed else 5;
    var w, w' := Moved(Histogram(log, bucket), shift), Histogram(log, bucket + passed);
    forall i | 0 <= i < 5
      ensures w[i] == w'[i]
    {
      HistogramAt(log, bucket + passed, i);
      if i < 5 - shift {
        HistogramAt(log, bucket, i + shift);
      } else {
        NothingBeyond(log, bucket, bucket + passed - 4 + i);
      }
    }
  }

  lemma BumpedHistogram(log: seq<Record>, bucket: nat, bytes: nat)
    ensures Bumped(Histogram(log, bucket), bytes) == Histogram(log + [Record(bytes, bucket)], bucket)
  {
    WrapAdd(In(log, bucket), bytes);
    var r := Record(bytes, bucket);
    Appended(log, r, bucket - 4);
    Appended(log, r, bucket - 3);
    Appended(log, r, bucket - 2);
    Appended(log, r, bucket - 1);
    Appended(log, r, bucket);
  }

  /** The last slot with some bytes more. */
  function Bumped(w: seq<nat>, bytes: nat): seq<nat>
    requires |w| == 5
  {
    w[4 := Wrap(w[4] + bytes)]
  }

  ghost predicate WindowExact(w: seq<nat>, log: seq<Record>, bucket: nat) {
    w == Histogram(log, bucket) && UpTo(log, bucket)
  }

  ghost predicate TotalExact(transfered: nat, log: seq<Record>) { transfered == Wrap(Total(log)) }

  /** The window after an update, whatever time has passed. */
  lemma WindowUpdated(w: seq<nat>, log: seq<Record>, bucket: nat, passed: nat, bytes: nat)
    requires WindowExact(w, log, bucket)
    ensures WindowExact(Bumped(Moved(w, if passed < 5 then passed else 5), bytes),
                        log + [Record(bytes, bucket + passed)], bucket + passed)
  {
    var shift := if passed < 5 then passed else 5;
    assert Moved(w, shift) == Histogram(log, bucket + passed) by { MovedHistogram(log, bucket, passed); }
    SlotBumped(Moved(w, shift), log, bucket + passed, bytes);
  }

  lemma SlotBumped(w: seq<nat>, log: seq<Record>, bucket: nat, bytes: nat)
    requires w == Histogram(log, bucket)
    ensures Bumped(w, bytes) == Histogram(log + [Record(bytes, bucket)], bucket)
  {
    BumpedHistogram(log, bucket, bytes);
  }

  lemma TotalUpdated(transfered: nat, log: seq<Record>, r: Record)
    requires TotalExact(transfered, log)
    ensures TotalExact(Wrap(transfered + r.bytes), log + [r])
  {
    Appended(log, r, 0);
    WrapAdd(Total(log), r.bytes);
  }

  // -------------------------------------------------------------- the rate shown

  /** The bucket a query at `now` falls into; in the first second it is taken to
      be the one after the last update's. */
  function QueryBucket(bucket: nat, last: nat, init: nat, now: nat): nat
    requires init <= last <= now
  {
    if now - init < SECOND then bucket + 1 else bucket + Buckets(now - last)
  }

  /** The clock has not run faster than the buckets. */
  predicate InTime(bucket: nat, last: nat, init: nat) { init <= last && bucket * 250 * MILLISECOND <= last - init }

  /** In the first second everything recorded so far is shown. */
  lemma FirstSecondShowsAll(log: seq<Record>, bucket: nat, last: nat, init: nat, now: nat)
    requires UpTo(log, bucket) && InTime(bucket, last, init) && last <= now && now - init < SECOND
    ensures LastSecond(log, QueryBucket(bucket, last, init, now)) == Total(log)
  {
    assert bucket <= 3;
    NothingIsLost(log, bucket);
    NothingNegative(log, bucket - 4);
    NothingNegative(log, bucket - 5);
  }

  /** The bytes shown, by time alone. */
  lemma RateByTime(log: seq<Record>, bucket: nat, last: nat, init: nat, now: nat)
    requires UpTo(log, bucket) && InTime(bucket, last, init) && last <= now
    ensures LastSecond(log, QueryBucket(bucket, last, init, now))
         == if now - init < SECOND then Total(log) else LastSecond(log, bucket + (now - last) / MILLISECOND / 250)
  {
    if now - init < SECOND {
      FirstSecondShowsAll(log, bucket, last, init, now);
    } else {
      BucketsByDivision(now - last);
    }
  }

  /** When the meter thinks the last update was, after an update at `now`. */
  function NextLast(last: nat, now: nat): nat
    requires last <= now
  {
    if Buckets(now - last) == 0 then last else now
  }

  lemma StaysInTime(bucket: nat, last: nat, init: nat, now: nat)
    requires InTime(bucket, last, init) && last <= now
    ensures InTime(bucket + Buckets(now - last), NextLast(last, now), init)
  {
    var passed := Buckets(now - last);
    BucketsByDivision(now - last);
    assert (bucket + passed) * 250 * MILLISECOND == bucket * 250 * MILLISECOND + passed * 250 * MILLISECOND;
  }

  lemma EmptyRecord(log: seq<Record>, b: nat, n: int)
    ensures LastSecond(log + [Record(0, b)], n) == LastSecond(log, n)
    ensures Total(log + [Record(0, b)]) == Total(log)
  {
    Appended(log, Record(0, b), n - 4);
    Appended(log, Record(0, b), n - 3);
    Appended(log, Record(0, b), n - 2);
    Appended(log, Record(0, b), n - 1);
  }

  lemma SameQueryBucket(bucket: nat, last: nat, init: nat, now: nat)
    requires init <= last <= now && now - init >= SECOND
    ensures QueryBucket(bucket + Buckets(now - last), NextLast(last, now), init, now)
         == QueryBucket(bucket, last, init, now)
  {
    assert Buckets(0) == 0;
  }

  /** An update of zero bytes does not change the rate shown at the same instant. */
  lemma IdleUpdateKeepsRate(log: seq<Record>, bucket: nat, last: nat, init: nat, now: nat)
    requires UpTo(log, bucket) && InTime(bucket, last, init) && last <= now
    ensures var b', last' := bucket + Buckets(now - last), NextLast(last, now);
            && InTime(b', last', init)
            && LastSecond(log + [Record(0, b')], QueryBucket(b', last', init, now))
               == LastSecond(log, QueryBucket(bucket, last, init, now))
  {
    var b', last' := bucket + Buckets(now - last), NextLast(last, now);
    StaysInTime(bucket, last, init, now);
    EmptyRecord(log, b', QueryBucket(b', last', init, now));
    if now - init < SECOND {
      FirstSecondShowsAll(log, bucket, last, init, now);
      FirstSecondShowsAll(log + [Record(0, b')], b', last', init, now);
    } else {
      SameQueryBucket(bucket, last, init, now);
    }
  }

  // ------------------------------------------------------------------ the object

  /** The meter's numbers are those of its history. */
  ghost predicate Exact(w: seq<nat>, transfered: nat, last: nat, init: nat, log: seq<Record>, bucket: nat) {
    && WindowExact(w, log, bucket)
    && TotalExact(transfered, log)
    && InTime(bucket, last, init)
  }

  /** What is in the window and what was shifted out of it make up the total. */
  lemma WindowAndPastAreTotal(w: seq<nat>, transfered: nat, last: nat, init: nat, log: seq<Record>, bucket: nat)
    requires Exact(w, transfered, last, init, log, bucket)
    ensures transfered == Wrap(w[0] + w[1] + w[2] + w[3] + w[4] + Before(log, bucket - 4))
  {
    NothingIsLost(log, bucket);
    WrapFive(In(log, bucket - 4), In(log, bucket - 3), In(log, bucket - 2), In(log, bucket - 1), In(log, bucket),
             Before(log, bucket - 4));
  }

  lemma WrapTwo(a: nat, b: nat, r: nat)
    ensures Wrap(Wrap(a) + Wrap(b) + r) == Wrap(a + b + r)
  {
    WrapAdd(a, Wrap(b) + r);
    WrapAdd(b, a + r);
  }

  lemma WrapFive(a: nat, b: nat, c: nat, d: nat, e: nat, p: nat)
    ensures Wrap(Wrap(a) + Wrap(b) + Wrap(c) + Wrap(d) + Wrap(e) + p) == Wrap(a + b + c + d + e + p)
  {
    WrapTwo(a, b, Wrap(c) + Wrap(d) + Wrap(e) + p);
    WrapTwo(c, d, a + b + Wrap(e) + p);
    WrapAdd(e, a + b + c + d + p);
  }

  lemma ShiftAndLast(last: nat, now: nat)
    requires last <= now
    ensures Shift(now - last) == if Buckets(now - last) < 5 then Buckets(now - last) else 5
    ensures NextLast(last, now) == if Shift(now - last) != 0 then now else last
  {
    ShiftIsCappedBuckets(now - last);
  }

  lemma ExactAfter(w: seq<nat>, w': seq<nat>, transfered: nat, last: nat, init: nat, log: seq<Record>,
                   log': seq<Record>, bucket: nat, bytes: nat, passed: nat, last': nat)
    requires Exact(w, transfered, last, init, log, bucket) && InTime(bucket + passed, last', init)
    requires w' == Bumped(Moved(w, if passed < 5 then passed else 5), bytes)
    requires log' == log + [Record(bytes, bucket + passed)]
    ensures Exact(w', Wrap(transfered + bytes), last', init, log', bucket + passed)
  {
    WindowUpdated(w, log, bucket, passed, bytes);
    TotalUpdated(transfered, log, Record(bytes, bucket + passed));
  }

  /** The meter stays exact in every update. */
  lemma UpdateStaysExact(w: seq<nat>, transfered: nat, last: nat, init: nat, log: seq<Record>, bucket: nat,
                         bytes: nat, now: nat)
    returns (l': nat, w': seq<nat>, log': seq<Record>, b': nat)
    requires Exact(w, transfered, last, init, log, bucket) && last <= now
    ensures Shift(now - last) <= 5
    ensures l' == NextLast(last, now) == if Shift(now - last) != 0 then now else last
    ensures b' == bucket + Buckets(now - last)
    ensures log' == log + [Record(bytes, b')]
    ensures w' == Bumped(Moved(w, Shift(now - last)), bytes)
    ensures Exact(w', Wrap(transfered + bytes), l', init, log', b')
  {
    var passed := Buckets(now - last);
    l', b' := NextLast(last, now), bucket + passed;
    log' := log + [Record(bytes, b')];
    ShiftAndLast(last, now);
    var shift := Shift(now - last);
    w' := Bumped(Moved(w, shift), bytes);
    StaysInTime(bucket, last, init, now);
    ExactAfter(w, w', transfered, last, init, log, log', bucket, bytes, passed, l');
  }

  class Meter {
    var transfered: nat
    const window: array<nat>
    const init: nat
    var lastUpdate: nat
    ghost var log: seq<Record>
    ghost var bucket: nat

    ghost predicate Valid()
      reads this, window
    {
      window.Length == 5 && Exact(window[..], transfered, lastUpdate, init, log, bucket)
    }

    constructor (start: nat, now: nat)
      requires start <= now
      ensures Valid() && fresh(window)
      ensures init == start && lastUpdate == now && log == [] && bucket == 0
    {
      transfered := 0;
      window := new nat[5](_ => 0);
      init, lastUpdate := start, now;
      log, bucket := [], 0;
    }

    /** Moves the slots down and clears the freed ones. */
    method ShiftWindow(shift: nat)
      requires window.Length == 5 && shift <= 5
      modifies window
      ensures window[..] == Moved(old(window[..]), shift)
    {
      for i := shift to 5
        invariant forall k | 0 <= k < i - shift :: window[k] == old(window[k + shift])
        invariant forall k | i - shift <= k < 5 :: window[k] == old(window[k])
      {
        window[i - shift] := window[i];
      }
      for i := 5 - shift to 5
        invariant forall k | 0 <= k < 5 - shift :: window[k] == old(window[k + shift])
        invariant forall k | 5 - shift <= k < i :: window[k] == 0
      {
        window[i] := 0;
      }
    }

    method Update(bytes: nat, now: nat)
      requires Valid() && lastUpdate <= now
      modifies this, window
      ensures Valid()
      ensures bucket == old(bucket) + Buckets(now - old(lastUpdate))
      ensures lastUpdate == NextLast(old(lastUpdate), now)
      ensures log == old(log) + [Record(bytes, bucket)]
    {
      ghost var l', w', log', b' := After(bytes, now);
      var shift := Shift(now - lastUpdate);
      RecordBytes(shift, bytes, w');
      if shift != 0 {
        lastUpdate := now;
      }
      transfered := Wrap(transfered + bytes);
      log, bucket := log', b';
    }

    /** Names what an update changes the state to. */
    lemma After(bytes: nat, now: nat) returns (l': nat, w': seq<nat>, log': seq<Record>, b': nat)
      requires Valid() && lastUpdate <= now
      ensures Shift(now - lastUpdate) <= 5
      ensures l' == NextLast(lastUpdate, now) == if Shift(now - lastUpdate) != 0 then now else lastUpdate
      ensures b' == bucket + Buckets(now - lastUpdate)
      ensures log' == log + [Record(bytes, b')]
      ensures w' == Bumped(Moved(window[..], Shift(now - lastUpdate)), bytes)
      ensures Exact(w', Wrap(transfered + bytes), l', init, log', b')
    {
      l', w', log', b' := UpdateStaysExact(window[..], transfered, lastUpdate, init, log, bucket, bytes, now);
    }

    /** The window's part of an update; `w'` names what it becomes. */
    method RecordBytes(shift: nat, bytes: nat, ghost w': seq<nat>)
      requires window.Length == 5 && shift <= 5
      requires w' == Bumped(Moved(window[..], shift), bytes)
      modifies window
      ensures window[..] == w'
    {
      if shift != 0 {
        ShiftWindow(shift);
      } else {
        assert Moved(window[..], 0) == window[..];
      }
      window[4] := Wrap(window[4] + bytes);
    }

    /** Adds up some slots of the window. */
    method AddSlots(from: nat, to: nat) returns (rate: nat)
      requires Valid() && from <= to <= 5
      ensures rate == Wrap(Sum(log, bucket - 4 + from, bucket - 4 + to))
    {
      rate := 0;
      for i := from to to
        invariant rate == Wrap(Sum(log, bucket - 4 + from, bucket - 4 + i))
      {
        SlotAdded(window[..], log, bucket, from, i);
        rate := Wrap(rate + window[i]);
      }
    }

    /** The rate: the bytes of the last full second before the query's bucket. */
    method CurRate(now: nat) returns (rate: nat)
      requires Valid() && lastUpdate <= now
      ensures rate == Wrap(LastSecond(log, QueryBucket(bucket, lastUpdate, init, now)))
      ensures now - init < SECOND ==> rate == Wrap(Total(log))
      ensures now - init >= SECOND ==>
                rate == Wrap(LastSecond(log, bucket + (now - lastUpdate) / MILLISECOND / 250))
    {
      var at := now;
      if now - init < SECOND {
        at := lastUpdate + 250 * MILLISECOND;
      }
      var offset := Shift(at - lastUpdate);
      var end := if offset != 0 then 5 else 4;
      rate := AddSlots(offset, end);
      ShownIsLastSecond(log, bucket, at - lastUpdate, offset, end);
      RateByTime(log, bucket, lastUpdate, init, now);
    }
  }

  lemma ShownIsLastSecond(log: seq<Record>, bucket: nat, duration: nat, offset: nat, end: nat)
    requires UpTo(log, bucket) && offset == Shift(duration) && end == (if offset != 0 then 5 else 4)
    ensures offset <= end
    ensures Sum(log, bucket - 4 + offset, bucket - 4 + end) == LastSecond(log, bucket + Buckets(duration))
  {
    ShiftIsCappedBuckets(duration);
    SumIsLastSecond(log, bucket, Buckets(duration), offset, end);
  }

  function Sum(log: seq<Record>, from: int, to: int): nat
    decreases to - from
  {
    if to <= from then 0 else Sum(log, from, to - 1) + In(log, to - 1)
  }

  lemma SumStep(log: seq<Record>, from: int, to: int)
    requires from <= to
    ensures Wrap(Wrap(Sum(log, from, to)) + Wrap(In(log, to))) == Wrap(Sum(log, from, to + 1))
  {
    WrapAdd(Sum(log, from, to), Wrap(In(log, to)));
    WrapAdd(In(log, to), Sum(log, from, to));
  }

  lemma SlotAdded(w: seq<nat>, log: seq<Record>, bucket: int, from: nat, i: nat)
    requires w == Histogram(log, bucket) && from <= i < 5
    ensures Wrap(Wrap(Sum(log, bucket - 4 + from, bucket - 4 + i)) + w[i])
         == Wrap(Sum(log, bucket - 4 + from, bucket - 4 + (i + 1)))
  {
    HistogramAt(log, bucket, i);
    SumStep(log, bucket - 4 + from, bucket - 4 + i);
  }

  /** The slots that are added up are the four buckets before the query's. */
  lemma SumIsLastSecond(log: seq<Record>, bucket: nat, passed: nat, offset: nat, end: nat)
    requires UpTo(log, bucket) && offset == (if passed < 5 then passed else 5) && end == (if offset != 0 then 5 else 4)
    ensures Sum(log, bucket - 4 + offset, bucket - 4 + end) == LastSecond(log, bucket + passed)
  {
    var n := bucket + passed;
    NothingBeyond(log, bucket, bucket + 1);
    NothingBeyond(log, bucket, bucket + 2);
    NothingBeyond(log, bucket, bucket + 3);
    if passed >= 5 {
      NothingBeyond(log, bucket, n - 4);
      NothingBeyond(log, bucket, n - 3);
      NothingBeyond(log, bucket, n - 2);
      NothingBeyond(log, bucket, n - 1);
    } else {
      SumUnrolls(log, bucket - 4 + offset, bucket - 4 + end);
    }
  }

  lemma SumUnrolls(log: seq<Record>, a: int, b: int)
    requires a <= b <= a + 4
    decreases b - a
    ensures b == a ==> Sum(log, a, b) == 0
    ensures b == a + 1 ==> Sum(log, a, b) == In(log, a)
    ensures b == a + 2 ==> Sum(log, a, b) == In(log, a) + In(log, a + 1)
    ensures b == a + 3 ==> Sum(log, a, b) == In(log, a) + In(log, a + 1) + In(log, a + 2)
    ensures b == a + 4 ==> Sum(log, a, b) == In(log, a) + In(log, a + 1) + In(log, a + 2) + In(log, a + 3)
  {
    if b > a {
      SumUnrolls(log, a, b - 1);
    }
  }
}
