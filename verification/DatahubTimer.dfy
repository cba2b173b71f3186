/** The FreeRTOS timer: 32-bit tick arithmetic judged against unbounded time.

    `unsigned int`, `unsigned long` and `int` are 32 bits wide. The tick counter is the
    real time in ticks modulo 2^32; it is a parameter of the calls that read it. */
module DatahubTimer {
  import opened Words

  const HALF: nat := 0x8000_0000

  /** Conversion of an unsigned value to `int`. */
  function Signed(x: Word): int {
    if x < HALF then x else x - WORD
  }

  /** `end - now` stored in an `int`. */
  function Remaining(end: Word, now: Word): int {
    Signed((end - now) % WORD)
  }

  /** The number of ticks countdown_ms adds. */
  function Count(timeout: Word, hz: Word): Word {
    var count := timeout * hz % WORD / 1000;
    if count == 0 then 1 else count
  }

  function LeftMs(end: Word, now: Word, hz: Word): int
    requires hz >= 1
  {
    var res := Remaining(end, now);
    if res < 0 then 0 else Signed(res * (1000 / hz) % WORD)
  }

  class Timer {
    var end: Word

    method InitTimer()
      modifies this
      ensures end == 0
    {
      end := 0;
    }

    method expired(now: Word) returns (r: bool)
      ensures r <==> Remaining(end, now) <= 0
    {
      var res := Signed((end - now) % WORD);
      return res <= 0;
    }

    method countdown_ms(timeout: Word, now: Word, hz: Word)
      modifies this
      ensures end == (now + Count(timeout, hz)) % WORD
      ensures var ticks := timeout * hz % 0x1_0000_0000 / 1000;
              end == (now + if ticks == 0 then 1 else ticks) % 0x1_0000_0000
    {
      var count := timeout * hz % WORD / 1000;
      if count == 0 {
        count := 1;
      }
      end := (now + count) % WORD;
    }

    method countdown(timeout: Word, now: Word, hz: Word)
      modifies this
      ensures end == (now + Count(timeout * 1000 % WORD, hz)) % WORD
    {
      countdown_ms(timeout * 1000 % WORD, now, hz);
    }

    method left_ms(now: Word, hz: Word) returns (left: int)
      requires hz >= 1
      ensures left == LeftMs(end, now, hz)
    {
      var res := Signed((end - now) % WORD);
      left := if res < 0 then 0 else Signed(res * (1000 / hz) % WORD);
    }
  }

  // ---------------------------------------------------------------- expiry in real time

  /** Whole turns of the counter do not change the remainder. */
  lemma Turns(x: int, y: int, k: int)
    requires x == y + WORD * k
    ensures x % WORD == y % WORD
  {
    var q, r := y / WORD, y % WORD;
    assert x == WORD * (q + k) + r;
    Remainder(x, q + k, r);
  }

  lemma Remainder(x: int, q: int, r: int)
    requires x == WORD * q + r && 0 <= r < WORD
    ensures x % WORD == r
  {
  }

  /** Subtracting wrapped values wraps the difference. */
  lemma WrappedDifference(a: int, b: int)
    ensures (a % WORD - b % WORD) % WORD == (a - b) % WORD
  {
    Turns(a - b, a % WORD - b % WORD, a / WORD - b / WORD);
  }

  lemma ArmedEnd(start: nat, c: nat)
    ensures (start % WORD + c) % WORD == (start + c) % WORD
  {
    Turns(start + c, start % WORD + c, start / WORD);
  }

  lemma SignedOfWrapped(d: int)
    requires 0 <= d + HALF && d < HALF
    ensures Signed(d % WORD) == d
  {
    assert d % WORD == if d >= 0 then d else d + WORD;
  }

  /** A timer armed at real time start with c ticks, polled at real time t: the ticks
      still to go, for every t no further than 2^31 past the deadline. */
  lemma RemainingInRealTime(start: nat, c: Word, t: nat)
    requires c < HALF && start <= t <= start + c + HALF
    ensures Remaining((start % WORD + c) % WORD, t % WORD) == start + c - t
  {
    hide Signed;
    ArmedEnd(start, c);
    WrappedDifference(start + c, t);
    SignedOfWrapped(start + c - t);
  }

  lemma CountIsSmall(timeout: Word, hz: Word)
    ensures 1 <= Count(timeout, hz) <= 4_294_967
  {
  }

  /** Expiry is exact across any number of counter wraps: with any requested time-out, from
      arming until 2^31 ticks past the deadline, `expired` answers whether the deadline has
      been reached. */
  lemma ExpiryIsExact(start: nat, timeout: Word, hz: Word, t: nat)
    requires start <= t <= start + Count(timeout, hz) + HALF
    ensures Remaining((start % WORD + Count(timeout, hz)) % WORD, t % WORD) <= 0 <==>
            t >= start + Count(timeout, hz)
  {
    CountIsSmall(timeout, hz);
    RemainingInRealTime(start, Count(timeout, hz), t);
  }

  /** At every real time, however late: the answer repeats with the counter. */
  lemma ExpiryForever(start: nat, c: Word, t: nat)
    ensures Remaining((start % WORD + c) % WORD, t % WORD) <= 0 <==> (t - start - c) % WORD <= HALF
  {
    hide Signed;
    ArmedEnd(start, c);
    WrappedDifference(start + c, t);
    WrappedNegation(start + c - t);
    SignedSplit((start + c - t) % WORD, (t - start - c) % WORD);
  }

  lemma WrappedNegation(d: int)
    ensures (d % WORD + -d % WORD) % WORD == 0
  {
    Turns(d % WORD + -d % WORD, 0, -(d / WORD) - (-d / WORD));
  }

  /** A value and its negation modulo 2^32. */
  lemma SignedSplit(x: Word, y: Word)
    requires (x + y) % WORD == 0
    ensures Signed(x) <= 0 <==> y <= HALF
  {
  }

  /** One tick after the window the timer looks unexpired again. */
  lemma ExpiryWindowIsTight(start: nat, timeout: Word, hz: Word)
    ensures var c := Count(timeout, hz);
            Remaining((start % WORD + c) % WORD, (start + c + HALF + 1) % WORD) > 0
  {
    hide Remaining, Count;
    var c := Count(timeout, hz);
    ExpiryForever(start, c, start + c + HALF + 1);
  }

  // ---------------------------------------------------------------- requested and granted time

  /** The count as a function of the product timeout * hz. */
  lemma CountOfProduct(timeout: Word, hz: Word, x: nat)
    requires x == timeout * hz
    ensures Count(timeout, hz) == if x % WORD / 1000 == 0 then 1 else x % WORD / 1000
  {
  }

  lemma JudgeCount(count: nat, x: nat)
    requires count == if x % WORD / 1000 == 0 then 1 else x % WORD / 1000
    ensures count == (if x / 1000 == 0 then 1 else x / 1000) <==> x < WORD
  {
    if x >= WORD {
      assert x % WORD <= x - WORD;
      assert x % WORD / 1000 < x / 1000;
    }
  }

  /** The tick count is the requested time rounded down, at least one tick, exactly when
      the 32-bit product does not wrap. */
  lemma CountIsExact(timeout: Word, hz: Word)
    ensures Count(timeout, hz) == (if timeout * hz / 1000 == 0 then 1 else timeout * hz / 1000) <==>
            timeout * hz < WORD
  {
    hide Count;
    CountOfProduct(timeout, hz, timeout * hz);
    JudgeCount(Count(timeout, hz), timeout * hz);
  }

  /** countdown(s) grants exactly s seconds exactly when the 32-bit products do not wrap. */
  lemma SecondsAreExact(s: Word, hz: Word)
    requires s * hz >= 1
    ensures Count(s * 1000 % WORD, hz) == s * hz <==> s * 1000 * hz < WORD
  {
    hide Count;
    var ticks := s * hz;
    SecondsProduct(s, hz, ticks);
    CountIsSmall(s * 1000 % WORD, hz);
    if 1000 * ticks < WORD {
      assert s * 1000 < WORD;
      WholeTicks(s * 1000, hz, ticks);
    }
  }

  lemma WholeTicks(ms: Word, hz: Word, ticks: nat)
    requires 1 <= ticks && 1000 * ticks < WORD && ms * hz == 1000 * ticks
    ensures Count(ms, hz) == ticks
  {
    hide Count;
    CountOfProduct(ms, hz, 1000 * ticks);
  }

  lemma SecondsProduct(s: nat, hz: nat, ticks: nat)
    requires ticks == s * hz >= 1
    ensures s * 1000 * hz == 1000 * ticks && s <= ticks
  {
    if hz >= 1 { MulMono(s, 1, hz); }
  }

  // ---------------------------------------------------------------- the time left

  /** The conversion to `int` keeps a product exactly when it fits; otherwise it lowers it. */
  lemma SignedOfProduct(x: nat)
    ensures Signed(x % WORD) <= x && (Signed(x % WORD) == x <==> x < HALF)
  {
    if x >= WORD { assert x % WORD <= x - WORD; }
  }

  /** left_ms is the remaining ticks times the truncated quotient 1000 / HZ exactly when that
      product fits an `int`; otherwise it is less. */
  lemma LeftIsExact(end: Word, now: Word, hz: Word)
    requires hz >= 1 && Remaining(end, now) >= 0
    ensures LeftMs(end, now, hz) <= Remaining(end, now) * (1000 / hz)
    ensures LeftMs(end, now, hz) == Remaining(end, now) * (1000 / hz) <==>
            Remaining(end, now) * (1000 / hz) < HALF
  {
    hide Signed, Remaining;
    var r, k := Remaining(end, now), 1000 / hz;
    MulMono(r, 0, k);
    SignedOfProduct(r * k);
  }

  /** Ticks times 1000 split by the tick rate. */
  lemma TicksInMs(r: nat, hz: nat)
    requires hz >= 1
    ensures r * (1000 / hz) * hz + r * (1000 % hz) == 1000 * r
  {
    var k, d := 1000 / hz, 1000 % hz;
    assert k * hz + d == 1000;
    MulAssoc(r, k, hz);
    assert r * (k * hz + d) == r * (k * hz) + r * d;
  }

  lemma ProductIsZero(r: nat, d: nat)
    ensures r * d == 0 <==> r == 0 || d == 0
  {
    if r > 0 && d > 0 { MulMono(r, 1, d); }
  }

  /** The true time left is 1000 / HZ milliseconds per tick. left_ms never promises more than
      that, loses exactly the remainder of 1000 / HZ on each tick where its product does not
      overflow, and so is the true time exactly when the product does not overflow and HZ
      divides 1000, or no tick is left. */
  lemma MillisecondsAreExact(end: Word, now: Word, hz: Word)
    requires hz >= 1 && Remaining(end, now) >= 0
    ensures var r, left := Remaining(end, now), LeftMs(end, now, hz);
            left * hz <= 1000 * r &&
            (r * (1000 / hz) < HALF ==> 1000 * r - left * hz == r * (1000 % hz)) &&
            (left * hz == 1000 * r <==> r * (1000 / hz) < HALF && (1000 % hz == 0 || r == 0))
  {
    hide LeftMs, Remaining;
    var r, k, d, left := Remaining(end, now), 1000 / hz, 1000 % hz, LeftMs(end, now, hz);
    LeftIsExact(end, now, hz);
    TicksInMs(r, hz);
    ProductIsZero(r, d);
    MulMono(r, 0, d);
    if left < r * k { Shorter(left, r * k, hz); }
  }

  lemma Shorter(a: int, b: int, h: nat)
    requires a < b && h >= 1
    ensures a * h < b * h
  {
  }

  /** 600 ticks at 600 Hz are one second; left_ms says 600 ms. */
  lemma MillisecondsCanBeShort()
    ensures Remaining(600, 0) == 600 && LeftMs(600, 0, 600) == 600
  {
  }

  /** Above 1000 ticks per second left_ms is 0 however much time is left. */
  lemma LeftAboveOneKilohertz(end: Word, now: Word, hz: Word)
    requires hz > 1000
    ensures LeftMs(end, now, hz) == 0
  {
    assert 1000 / hz == 0;
    ProductIsZero(if Remaining(end, now) < 0 then 0 else Remaining(end, now), 0);
  }

  /** Armed and polled in real time, at every tick rate: left_ms is the ticks to go times the
      truncated 1000 / HZ exactly unless the rate is one tick per second and more than 2147483
      ticks are left. */
  lemma LeftInRealTime(start: nat, timeout: Word, hz: Word, t: nat)
    requires hz >= 1 && start <= t <= start + Count(timeout, hz) + HALF
    ensures var deadline := start + Count(timeout, hz);
            var end := (start % WORD + Count(timeout, hz)) % WORD;
            LeftMs(end, t % WORD, hz) == (if t >= deadline then 0 else (deadline - t) * (1000 / hz)) <==>
            hz >= 2 || deadline - t <= 2_147_483
  {
    hide Count, Remaining, LeftMs;
    var c := Count(timeout, hz);
    var end := (start % WORD + c) % WORD;
    CountIsSmall(timeout, hz);
    RemainingInRealTime(start, c, t);
    if t < start + c {
      LeftIsExact(end, t % WORD, hz);
      ProductFits(start + c - t, hz);
    } else {
      LeftAfterDeadline(end, t % WORD, hz);
    }
  }

  lemma LeftAfterDeadline(end: Word, now: Word, hz: Word)
    requires hz >= 1 && Remaining(end, now) <= 0
    ensures LeftMs(end, now, hz) == 0
  {
  }

  lemma ProductFits(r: nat, hz: nat)
    requires hz >= 1 && r <= 4_294_967
    ensures r * (1000 / hz) < HALF <==> hz >= 2 || r <= 2_147_483
    ensures 1 <= r && hz <= 1000 ==> 0 < r * (1000 / hz) < WORD
  {
    var k := 1000 / hz;
    if hz >= 2 {
      assert k <= 500;
      MulMono(r, k, 500);
    }
    if hz <= 1000 {
      assert k >= 1;
      MulMono(r, 1, k);
    }
  }

  /** Over the same window left_ms is 0 exactly when the timer has expired, or always if there
      are more than 1000 ticks per second. This includes one tick per second, where the value
      may be wrong but does not wrap to 0. */
  lemma LeftIsZeroExactly(start: nat, timeout: Word, hz: Word, t: nat)
    requires hz >= 1 && start <= t <= start + Count(timeout, hz) + HALF
    ensures var end := (start % WORD + Count(timeout, hz)) % WORD;
            (LeftMs(end, t % WORD, hz) == 0 <==> Remaining(end, t % WORD) <= 0 || hz > 1000) &&
            (Remaining(end, t % WORD) <= 0 <==> t >= start + Count(timeout, hz))
  {
    hide Count, Remaining, LeftMs;
    var c := Count(timeout, hz);
    var end := (start % WORD + c) % WORD;
    CountIsSmall(timeout, hz);
    RemainingInRealTime(start, c, t);
    if hz > 1000 {
      LeftAboveOneKilohertz(end, t % WORD, hz);
    } else if t < start + c {
      ProductFits(start + c - t, hz);
      LeftOfProduct(end, t % WORD, hz, (start + c - t) * (1000 / hz));
    } else {
      LeftAfterDeadline(end, t % WORD, hz);
    }
  }

  lemma LeftOfProduct(end: Word, now: Word, hz: Word, x: nat)
    requires hz >= 1 && Remaining(end, now) >= 0 && x == Remaining(end, now) * (1000 / hz) < WORD
    ensures LeftMs(end, now, hz) == if x < HALF then x else x - WORD
  {
    hide Remaining;
  }

  /** With one tick per second, the value at every time in the window: too small by 2^32 above
      2147483 ticks to go. */
  lemma LeftWithOneHertz(start: nat, timeout: Word, t: nat)
    requires start <= t <= start + Count(timeout, 1) + HALF
    ensures var deadline := start + Count(timeout, 1);
            var end := (start % WORD + Count(timeout, 1)) % WORD;
            LeftMs(end, t % WORD, 1) ==
              if t >= deadline then 0
              else (deadline - t) * 1000 - if deadline - t <= 2_147_483 then 0 else WORD
  {
    hide Count, Remaining, LeftMs;
    var c := Count(timeout, 1);
    var end := (start % WORD + c) % WORD;
    CountIsSmall(timeout, 1);
    RemainingInRealTime(start, c, t);
    if t < start + c {
      LeftOfProduct(end, t % WORD, 1, (start + c - t) * 1000);
    } else {
      LeftAfterDeadline(end, t % WORD, 1);
    }
  }

  /** For example, a maximal time-out at 1 Hz has a negative time left. */
  lemma LeftCanBeNegative()
    ensures LeftMs((0 + Count(4_294_967_295, 1)) % WORD, 0, 1) < 0
  {
  }
}
