/** The token bucket that paces transfers (crates/chorrent/src/limits.rs), with
    time and tokens as real numbers. */
module Limits {
  /** The pair the program keeps under its lock. */
  datatype Bucket = Bucket(tokens: real, last: real)

  /** One call in lock order: the time it reads under the lock, and its bytes. */
  datatype Call = Call(now: real, bytes: nat)

  function Least(a: real, b: real): real {
    if a <= b then a else b
  }

  function Most(a: real, b: real): real {
    if a <= b then b else a
  }

  /** The bytes that a time is worth. */
  function Worth(rate: real): real -> real {
    t => rate * t
  }

  /** A bucket that earns tokens, up to `burst` of them, and pays for a call. */
  function Taken(worth: real -> real, burst: real, b: Bucket, call: Call): Bucket {
    Bucket(Least(b.tokens + worth(Most(call.now - b.last, 0.0)), burst) - call.bytes as real, call.now)
  }

  /** When the call that left the bucket like this returns. */
  function Completion(rate: real, b: Bucket): real
    requires rate > 0.0
  {
    if b.tokens < 0.0 then b.last + -b.tokens / rate else b.last
  }

  class RateLimiter {
    const rate: real
    var tokens: real
    var last: real

    ghost predicate Valid() reads this {
      rate > 0.0
    }

    ghost function Contents(): Bucket reads this {
      Bucket(tokens, last)
    }

    constructor (bytesPerSec: nat, now: real)
      ensures Valid() && rate == (if bytesPerSec == 0 then 1 else bytesPerSec) as real
      ensures Contents() == Full(rate, now)
    {
      rate := (if bytesPerSec == 0 then 1 else bytesPerSec) as real;
      tokens := (if bytesPerSec == 0 then 1 else bytesPerSec) as real;
      last := now;
    }

    /** How long the caller sleeps. */
    method Acquire(bytes: nat, now: real) returns (wait: real)
      requires Valid()
      modifies this
      ensures Valid() && Contents() == Taken(Worth(rate), rate, old(Contents()), Call(now, bytes))
      ensures wait >= 0.0 && now + wait == Completion(rate, Contents())
    {
      tokens := Least(tokens + Most(now - last, 0.0) * rate, rate);
      last := now;
      tokens := tokens - bytes as real;
      wait := if tokens < 0.0 then -tokens / rate else 0.0;
      if tokens < 0.0 {
        QuotientPositive(-tokens, rate);
      }
    }
  }

  lemma QuotientPositive(x: real, y: real)
    requires x >= 0.0 && y > 0.0
    ensures x / y >= 0.0
  {
  }

  // ---- Whole runs ----

  function Full(burst: real, now: real): Bucket {
    Bucket(burst, now)
  }

  /** The bucket after all the calls. */
  function After(worth: real -> real, burst: real, start: real, calls: seq<Call>): Bucket {
    if calls == [] then Full(burst, start)
    else Taken(worth, burst, After(worth, burst, start, calls[..|calls| - 1]), calls[|calls| - 1])
  }

  /** When call `k` returns. */
  function Done(rate: real, start: real, calls: seq<Call>, k: nat): real
    requires rate > 0.0 && k < |calls|
  {
    Completion(rate, After(Worth(rate), rate, start, calls[..k + 1]))
  }

  /** The clock does not run backwards. */
  ghost predicate Ordered(start: real, calls: seq<Call>) {
    && (forall k :: 0 <= k < |calls| ==> start <= calls[k].now)
    && forall j, k :: 0 <= j < k < |calls| ==> calls[j].now <= calls[k].now
  }

  function Bytes(calls: seq<Call>): nat {
    if calls == [] then 0 else Bytes(calls[..|calls| - 1]) + calls[|calls| - 1].bytes
  }

  /** The bytes of calls `i` up to and including `k`. */
  function Between(calls: seq<Call>, i: nat, k: nat): nat
    requires i <= k < |calls|
  {
    Bytes(calls[i..k + 1])
  }

  lemma BetweenMore(calls: seq<Call>, i: nat, k: nat)
    requires i <= k < |calls|
    ensures Between(calls, i, k) == (if i < k then Between(calls, i, k - 1) else 0) + calls[k].bytes
  {
    var part := calls[i..k + 1];
    assert |part| == k - i + 1;
    assert part[|part| - 1] == calls[k];
    assert part[..|part| - 1] == calls[i..k];
    assert Bytes(part) == Bytes(part[..|part| - 1]) + part[|part| - 1].bytes;
    assert i == k ==> calls[i..k] == [];
  }

  // ---- The same run with time counted in bytes ----

  /** `worth` turns times into bytes at the rate at which they are earned. */
  ghost predicate ConvertsAt(worth: real -> real, a: real, b: real) {
    (a <= b <==> worth(a) <= worth(b)) && worth(b - a) == worth(b) - worth(a)
  }

  ghost predicate Converts(worth: real -> real) {
    forall a, b :: ConvertsAt(worth, a, b)
  }

  /** When the debt of all the calls is paid off. */
  function Level(worth: real -> real, burst: real, start: real, calls: seq<Call>): real {
    if calls == [] then worth(start) - burst
    else
      var n := |calls| - 1;
      Most(Level(worth, burst, start, calls[..n]), worth(calls[n].now) - burst) + calls[n].bytes as real
  }

  /** That is what the bucket keeps. */
  lemma {:induction false} LevelIs(worth: real -> real, burst: real, start: real, calls: seq<Call>)
    requires Converts(worth) && Ordered(start, calls)
    ensures var b := After(worth, burst, start, calls);
            && b.last == (if calls == [] then start else calls[|calls| - 1].now)
            && worth(b.last) - b.tokens == Level(worth, burst, start, calls)
  {
    if calls != [] {
      var n := |calls| - 1;
      LevelIs(worth, burst, start, calls[..n]);
      assert ConvertsAt(worth, After(worth, burst, start, calls[..n]).last, calls[n].now);
    }
  }

  /** All the bytes since call `i` have raised the level. */
  lemma {:induction false} LevelRises(worth: real -> real, burst: real, start: real, calls: seq<Call>, i: nat, k: nat)
    requires i <= k < |calls|
    ensures Level(worth, burst, start, calls[..k + 1]) >= worth(calls[i].now) - burst + Between(calls, i, k) as real
    ensures i < k ==>
              Level(worth, burst, start, calls[..k + 1])
              >= Level(worth, burst, start, calls[..i + 1]) + Between(calls, i + 1, k) as real
    decreases k
  {
    assert calls[..k + 1][..k] == calls[..k];
    BetweenMore(calls, i, k);
    if i < k {
      LevelRises(worth, burst, start, calls, i, k - 1);
      BetweenMore(calls, i + 1, k);
    }
  }

  /** The last call that found the bucket full decides the level. */
  lemma {:induction false} LevelSetBy(worth: real -> real, burst: real, start: real, calls: seq<Call>, k: nat)
    returns (i: nat)
    requires k < |calls| && worth(start) <= worth(calls[0].now)
    ensures i <= k
    ensures Level(worth, burst, start, calls[..k + 1]) == worth(calls[i].now) - burst + Between(calls, i, k) as real
  {
    assert calls[..k + 1][..k] == calls[..k];
    BetweenMore(calls, k, k);
    if k == 0 || Level(worth, burst, start, calls[..k]) <= worth(calls[k].now) - burst {
      i := k;
    } else {
      i := LevelSetBy(worth, burst, start, calls, k - 1);
      BetweenMore(calls, i, k);
    }
  }

  /** When call `k` returns, in bytes. */
  function Paid(worth: real -> real, burst: real, start: real, calls: seq<Call>, k: nat): real
    requires k < |calls|
  {
    Most(worth(calls[k].now), Level(worth, burst, start, calls[..k + 1]))
  }

  lemma PaidBound(worth: real -> real, burst: real, start: real, calls: seq<Call>, i: nat, k: nat)
    requires i < k < |calls| && burst > 0.0 && worth(calls[i].now) <= worth(calls[k].now)
    ensures Paid(worth, burst, start, calls, i) <= Paid(worth, burst, start, calls, k)
    ensures Between(calls, i + 1, k) as real
         <= Paid(worth, burst, start, calls, k) - Paid(worth, burst, start, calls, i) + burst
  {
    LevelRises(worth, burst, start, calls, i, k);
    LevelRises(worth, burst, start, calls, i, i);
  }

  ghost predicate AffordableSince(worth: real -> real, burst: real, calls: seq<Call>, i: nat, k: nat, c: real)
    requires i <= k < |calls|
  {
    Between(calls, i, k) as real <= c - worth(calls[i].now) + burst
  }

  lemma PaidIff(worth: real -> real, burst: real, start: real, calls: seq<Call>, k: nat, c: real)
    requires k < |calls| && worth(start) <= worth(calls[0].now)
    ensures Paid(worth, burst, start, calls, k) <= c
            <==> worth(calls[k].now) <= c && forall i :: 0 <= i <= k ==> AffordableSince(worth, burst, calls, i, k, c)
  {
    if Paid(worth, burst, start, calls, k) <= c {
      forall i | 0 <= i <= k ensures AffordableSince(worth, burst, calls, i, k, c) {
        LevelRises(worth, burst, start, calls, i, k);
      }
    }
    if forall i :: 0 <= i <= k ==> AffordableSince(worth, burst, calls, i, k, c) {
      var i := LevelSetBy(worth, burst, start, calls, k);
      assert AffordableSince(worth, burst, calls, i, k, c);
    }
  }

  // ---- At the limiter's rate ----

  lemma RateConvertsAt(rate: real, a: real, b: real)
    requires rate > 0.0
    ensures ConvertsAt(Worth(rate), a, b)
  {
    if a <= b {
      assert rate * (b - a) >= 0.0;
    } else {
      assert rate * (a - b) > 0.0;
    }
  }

  lemma RateConverts(rate: real)
    requires rate > 0.0
    ensures Converts(Worth(rate))
  {
    forall a, b ensures ConvertsAt(Worth(rate), a, b) {
      RateConvertsAt(rate, a, b);
    }
  }

  lemma CompletionIs(rate: real, b: Bucket)
    requires rate > 0.0
    ensures Worth(rate)(Completion(rate, b)) == Most(Worth(rate)(b.last), Worth(rate)(b.last) - b.tokens)
  {
    if b.tokens < 0.0 {
      assert rate * (-b.tokens / rate) == -b.tokens;
    }
  }

  lemma DoneIsPaid(rate: real, start: real, calls: seq<Call>, k: nat)
    requires rate > 0.0 && Ordered(start, calls) && k < |calls|
    ensures Worth(rate)(Done(rate, start, calls, k)) == Paid(Worth(rate), rate, start, calls, k)
  {
    RateConverts(rate);
    LevelIs(Worth(rate), rate, start, calls[..k + 1]);
    CompletionIs(rate, After(Worth(rate), rate, start, calls[..k + 1]));
  }

  lemma WindowInBytes(rate: real, start: real, calls: seq<Call>, i: nat, k: nat) returns (ci: real, ck: real)
    requires rate > 0.0 && Ordered(start, calls) && i < k < |calls|
    ensures ci == Done(rate, start, calls, i) && ck == Done(rate, start, calls, k)
    ensures ci <= ck && Between(calls, i + 1, k) as real <= Worth(rate)(ck) - Worth(rate)(ci) + rate
  {
    ci, ck := Done(rate, start, calls, i), Done(rate, start, calls, k);
    DoneIsPaid(rate, start, calls, i);
    DoneIsPaid(rate, start, calls, k);
    RateConvertsAt(rate, calls[i].now, calls[k].now);
    PaidBound(Worth(rate), rate, start, calls, i, k);
    RateConvertsAt(rate, ci, ck);
  }

  /** Calls return in lock order, and over any window the bytes let through are
      at most one second's burst above the rate, however large single calls are. */
  lemma RateBound(rate: real, start: real, calls: seq<Call>, i: nat, k: nat) returns (ci: real, ck: real)
    requires rate > 0.0 && Ordered(start, calls) && i < k < |calls|
    ensures ci == Done(rate, start, calls, i) && ck == Done(rate, start, calls, k)
    ensures ci <= ck && Between(calls, i + 1, k) as real <= rate * (ck - ci + 1.0)
  {
    ci, ck := WindowInBytes(rate, start, calls, i, k);
    Spread(rate, ck, ci);
  }

  lemma Spread(rate: real, a: real, b: real)
    ensures rate * (a - b + 1.0) == Worth(rate)(a) - Worth(rate)(b) + rate
  {
  }

  /** `c` keeps the bytes of calls `i` to `k` within the rate, measured from the arrival of call `i`. */
  ghost predicate AllowedSince(rate: real, calls: seq<Call>, i: nat, k: nat, c: real)
    requires i <= k < |calls|
  {
    Between(calls, i, k) as real <= rate * (c - calls[i].now + 1.0)
  }

  /** Nobody waits longer than the rate demands: a call returns at exactly the
      first time that keeps every window up to it within the rate. */
  lemma ReturnsAsSoonAsAllowed(rate: real, start: real, calls: seq<Call>, k: nat, c: real)
    requires rate > 0.0 && Ordered(start, calls) && k < |calls|
    ensures Done(rate, start, calls, k) <= c
            <==> calls[k].now <= c && forall i :: 0 <= i <= k ==> AllowedSince(rate, calls, i, k, c)
  {
    var worth := Worth(rate);
    RateConvertsAt(rate, start, calls[0].now);
    RateConvertsAt(rate, calls[k].now, c);
    RateConvertsAt(rate, Done(rate, start, calls, k), c);
    DoneIsPaid(rate, start, calls, k);
    PaidIff(worth, rate, start, calls, k, worth(c));
    forall i | 0 <= i <= k
      ensures AllowedSince(rate, calls, i, k, c) <==> AffordableSince(worth, rate, calls, i, k, worth(c))
    {
      AllowedIsAffordable(rate, calls, i, k, c);
    }
  }

  lemma AllowedIsAffordable(rate: real, calls: seq<Call>, i: nat, k: nat, c: real)
    requires i <= k < |calls|
    ensures AllowedSince(rate, calls, i, k, c) <==> AffordableSince(Worth(rate), rate, calls, i, k, Worth(rate)(c))
  {
    Spread(rate, c, calls[i].now);
  }

  /** For instance, four calls for a second's worth each, one after the other: the first
      is free, and the last returns after three seconds. */
  lemma FourSeconds(calls: seq<Call>)
    requires calls == [Call(0.0, 1000), Call(0.0, 1000), Call(1.0, 1000), Call(2.0, 1000)]
    ensures Done(1000.0, 0.0, calls, 0) == 0.0 && Done(1000.0, 0.0, calls, 1) == 1.0
    ensures Done(1000.0, 0.0, calls, 2) == 2.0 && Done(1000.0, 0.0, calls, 3) == 3.0
  {
    var worth := Worth(1000.0);
    assert calls[..1][..0] == [] && calls[..2][..1] == calls[..1];
    assert calls[..3][..2] == calls[..2] && calls[..4][..3] == calls[..3];
    assert After(worth, 1000.0, 0.0, calls[..1]) == Bucket(0.0, 0.0);
    assert After(worth, 1000.0, 0.0, calls[..2]) == Bucket(-1000.0, 0.0);
    assert After(worth, 1000.0, 0.0, calls[..3]) == Bucket(-1000.0, 1.0);
    assert After(worth, 1000.0, 0.0, calls[..4]) == Bucket(-1000.0, 2.0);
  }
}
