/** Filling a gap in a graph: the updates written between the last one and now. Values and times are 64-bit
    integers that wrap around; division truncates towards zero. */
module Interpolation {
  import opened Decimals

  const MAX_INTERPOLATE_INTERVALS := 10

  /** How long rrd waits for the next update before the value counts as unknown. */
  const HEARTBEAT := 120

  predicate Int64(x: int) { -INT64 <= x < INT64 }

  function Wrap(x: int): (w: int)
    ensures Int64(w) && (Int64(x) ==> w == x)
  {
    (x + INT64) % UINT64 - INT64
  }

  /** The value of 64 bits that differs from x by a multiple of their range. */
  lemma WrapLaw(x: int, w: int)
    ensures w == Wrap(x) <==> -0x8000_0000_0000_0000 <= w < 0x8000_0000_0000_0000
                              && (x - w) % 0x1_0000_0000_0000_0000 == 0
  {
    assert x - Wrap(x) == (x + INT64) / UINT64 * UINT64;
  }

  function Quot(a: int, n: int): int
    requires n > 0
  {
    if a >= 0 then a / n else -(-a / n)
  }

  datatype Update = Update(time: int, value: int)

  /** A gap is filled if it is longer than a minute, but not too long. */
  predicate Fires(last: int, now: int) { 60 < Wrap(now - last) < 60 * MAX_INTERPOLATE_INTERVALS }

  function Intervals(last: int, now: int): (n: int)
    requires Fires(last, now)
    ensures 2 <= n <= MAX_INTERPOLATE_INTERVALS
  {
    Wrap(now - last) / 60 + 1
  }

  /** Update i, as computed. */
  function Inserted(last: int, now: int, was: int, value: int, i: int): Update
    requires Fires(last, now)
  {
    var n := Intervals(last, now);
    Update(Wrap(last + Wrap(i * Quot(Wrap(now - last), n))), Wrap(was + Wrap(i * Quot(Wrap(value - was), n))))
  }

  /** The inserted updates, between the last one and the one of now. */
  function Filling(last: int, lastUptime: nat, was: int, now: int, uptime: nat, value: int): seq<Update> {
    if uptime > lastUptime && Fires(last, now) then
      seq(Intervals(last, now) - 1, i requires 0 <= i && Fires(last, now) => Inserted(last, now, was, value, i + 1))
    else []
  }

  method Interpolate(last: int, lastUptime: nat, was: int, now: int, uptime: nat, value: int)
    returns (updates: seq<Update>)
    ensures updates == Filling(last, lastUptime, was, now, uptime, value)
  {
    hide Wrap, Quot;
    updates := [];
    if uptime > lastUptime && Wrap(now - last) > 60 && Wrap(now - last) < 60 * MAX_INTERPOLATE_INTERVALS {
      var intervals := Wrap(now - last) / 60 + 1;
      var timestep := Quot(Wrap(now - last), intervals);
      var valuestep := Quot(Wrap(value - was), intervals);
      for i := 1 to intervals
        invariant |updates| == i - 1
        invariant forall j :: 0 <= j < i - 1 ==> updates[j] == Inserted(last, now, was, value, j + 1)
      {
        var curTime := Wrap(last + Wrap(i * timestep));
        var curValue := Wrap(was + Wrap(i * valuestep));
        updates := updates + [Update(curTime, curValue)];
      }
    }
  }

  // ---------- products of small factors ----------

  lemma Products(i: int, j: int, step: int)
    requires 0 <= i <= j
    ensures step >= 0 ==> 0 <= i * step <= j * step
    ensures step <= 0 ==> 0 >= i * step >= j * step
    ensures (i + 1) * step == i * step + step
    ensures i < j && step > 0 ==> i * step < j * step
    ensures i < j && step < 0 ==> i * step > j * step
  {
  }

  lemma QuotBound(a: int, n: int)
    requires n >= 2
    ensures a >= 0 ==> 0 <= n * Quot(a, n) <= a && Quot(a, n) >= 0
    ensures a <= 0 ==> 0 >= n * Quot(a, n) >= a && Quot(a, n) <= 0
    ensures Quot(a, n) == 0 <==> -n < a < n
  {
  }

  // ---------- times ----------

  /** The clock reads some time since 1970. */
  predicate Clock(now: int) { 0 <= now < INT64 }

  /** Wrapping around does not matter: a filled gap is the real distance. */
  lemma RealGap(last: int, now: int)
    requires Int64(last) && Clock(now) && Fires(last, now)
    ensures Wrap(now - last) == now - last
  {
  }

  lemma Steps(gap: int)
    requires 60 < gap < 60 * MAX_INTERPOLATE_INTERVALS
    ensures var n := gap / 60 + 1;
            0 < Quot(gap, n) < 60 && 0 < gap - (n - 1) * Quot(gap, n) <= 68
  {
    var n := gap / 60 + 1;
    var q := gap / n;
    assert gap == q * n + gap % n;
    assert q * n - (n - 1) * q == q;
    Products(60, if q < 60 then 60 else q, n);
  }

  /** The times between the last update (0) and now (n). */
  function Time(last: int, now: int, i: int): int
    requires Fires(last, now)
  {
    if i == Intervals(last, now) then now else Inserted(last, now, 0, 0, i).time
  }

  /** Inserted times strictly increase strictly between the last update and now, and no two neighbours are
      as far apart as the heartbeat. */
  lemma {:induction false} TimesFit(last: int, now: int, i: int)
    requires Int64(last) && Clock(now) && Fires(last, now) && 0 <= i < Intervals(last, now)
    ensures Time(last, now, 0) == last
    ensures last <= Time(last, now, i) < Time(last, now, i + 1) <= now
    ensures Time(last, now, i + 1) - Time(last, now, i) <= 68 < HEARTBEAT
  {
    RealGap(last, now);
    var n := Intervals(last, now);
    var q := Quot(now - last, n);
    Steps(now - last);
    TimeIs(last, now, i);
    TimeIs(last, now, 0);
    if i + 1 < n {
      TimeIs(last, now, i + 1);
    } else {
      assert Time(last, now, i + 1) == now;
    }
    hide *;
    Products(i, n - 1, q);
    Products(0, i, q);
    if i + 1 < n { Products(i + 1, n - 1, q); }
    assert 0 * q == 0;
  }

  /** The same for the updates that are written: from the last update over the inserted ones to now, time moves
      on, and never by more than 68 seconds. */
  lemma {:induction false} GapFilled(last: int, lastUptime: nat, was: int, now: int, uptime: nat, value: int)
    requires Int64(last) && Clock(now)
    ensures var us := Filling(last, lastUptime, was, now, uptime, value);
            && (us != [] <==> uptime > lastUptime && 60 < now - last < 600)
            && (us != [] ==> |us| == (now - last) / 60)
            && (us != [] ==> last < us[0].time <= last + 68 && now - 68 <= us[|us| - 1].time < now)
            && forall k :: 0 <= k < |us| - 1 ==> us[k].time < us[k + 1].time <= us[k].time + 68
  {
    var us := Filling(last, lastUptime, was, now, uptime, value);
    NoFalseGap(last, now);
    if us != [] {
      var n := Intervals(last, now);
      hide Wrap, Inserted, Quot;
      forall k | 0 <= k < |us| ensures us[k].time == Time(last, now, k + 1) { SameTimes(last, now, was, value, k + 1); }
      TimesFit(last, now, 0);
      TimesFit(last, now, n - 1);
      forall k | 0 <= k < |us| - 1 ensures us[k].time < us[k + 1].time <= us[k].time + 68 {
        TimesFit(last, now, k + 1);
      }
    }
  }

  lemma NoFalseGap(last: int, now: int)
    requires Int64(last) && Clock(now)
    ensures Fires(last, now) <==> 60 < now - last < 600
  {
  }

  lemma SameTimes(last: int, now: int, was: int, value: int, i: int)
    requires Fires(last, now)
    ensures Inserted(last, now, was, value, i).time == Inserted(last, now, 0, 0, i).time
  {
    hide Wrap, Quot;
  }

  lemma TimeIs(last: int, now: int, i: int)
    requires Int64(last) && Clock(now) && Fires(last, now) && 0 <= i < Intervals(last, now)
    ensures Time(last, now, i) == last + i * Quot(now - last, Intervals(last, now))
  {
    RealGap(last, now);
    var n := Intervals(last, now);
    var q := Quot(now - last, n);
    Steps(now - last);
    hide Quot, Wrap;
    Products(i, n - 1, q);
    assert Wrap(i * q) == i * q;
    assert Wrap(last + i * q) == last + i * q;
  }

  // ---------- values ----------

  /** The values between the last one (0) and the new one (n). */
  function Val(last: int, now: int, was: int, value: int, i: int): int
    requires Fires(last, now)
  {
    if i == Intervals(last, now) then value else Inserted(last, now, was, value, i).value
  }

  /** All values in order, from the last one to the new one, without going back or beyond. */
  ghost predicate Monotone(last: int, now: int, was: int, value: int)
    requires Fires(last, now)
  {
    forall i, j :: 0 <= i <= j <= Intervals(last, now) ==>
      if was <= value then Val(last, now, was, value, i) <= Val(last, now, was, value, j)
      else Val(last, now, was, value, i) >= Val(last, now, was, value, j)
  }

  /** The values move steadily exactly when their distance fits 64 bits, or its wrapped form is too small to
      make a step. */
  lemma ValuesSteady(last: int, now: int, was: int, value: int)
    requires Fires(last, now) && Int64(was) && Int64(value)
    ensures var w := Wrap(value - was);
            var n := Intervals(last, now);
            Monotone(last, now, was, value) <==> Int64(value - was) || -n < w < n
  {
    var n := Intervals(last, now);
    var w := Wrap(value - was);
    QuotBound(w, n);
    if Int64(value - was) {
      Steady(last, now, was, value);
    } else if -n < w < n {
      Flat(last, now, was, value);
    } else {
      Astray(last, now, was, value);
    }
  }

  lemma ValIs(last: int, now: int, was: int, value: int, i: int)
    requires Fires(last, now) && 0 <= i < Intervals(last, now) && Int64(was)
    ensures var q := Quot(Wrap(value - was), Intervals(last, now));
            Val(last, now, was, value, i) == Wrap(was + i * q)
    ensures Val(last, now, was, value, 0) == was
  {
    var n := Intervals(last, now);
    var w := Wrap(value - was);
    var q := Quot(w, n);
    QuotBound(w, n);
    hide Quot;
    Products(i, n, q);
    assert Int64(i * q);
    assert 0 * q == 0;
  }

  lemma Steady(last: int, now: int, was: int, value: int)
    requires Fires(last, now) && Int64(was) && Int64(value) && Int64(value - was)
    ensures Monotone(last, now, was, value)
  {
    var n := Intervals(last, now);
    var q := Quot(value - was, n);
    QuotBound(value - was, n);
    hide Quot, Wrap;
    forall i | 0 <= i <= n
      ensures i < n ==> Val(last, now, was, value, i) == was + i * q
      ensures if was <= value then was <= was + i * q <= value else was >= was + i * q >= value
    {
      Products(i, n, q);
      if i < n { ValIs(last, now, was, value, i); }
    }
    forall i, j | 0 <= i <= j <= n
      ensures if was <= value then Val(last, now, was, value, i) <= Val(last, now, was, value, j)
              else Val(last, now, was, value, i) >= Val(last, now, was, value, j)
    {
      Products(i, j, q);
    }
  }

  lemma Flat(last: int, now: int, was: int, value: int)
    requires Fires(last, now) && Int64(was) && Int64(value)
    requires Quot(Wrap(value - was), Intervals(last, now)) == 0
    ensures Monotone(last, now, was, value)
  {
    var n := Intervals(last, now);
    hide Quot, Wrap;
    forall i | 0 <= i < n ensures Val(last, now, was, value, i) == was {
      ValIs(last, now, was, value, i);
      assert i * 0 == 0;
    }
  }

  /** When the distance does not fit, the first step goes back, or beyond the new value. */
  lemma Astray(last: int, now: int, was: int, value: int)
    requires Fires(last, now) && Int64(was) && Int64(value) && !Int64(value - was)
    requires Quot(Wrap(value - was), Intervals(last, now)) != 0
    ensures !Monotone(last, now, was, value)
  {
    hide Wrap, Quot, Intervals, Fires;
    var n := Intervals(last, now);
    var w := Wrap(value - was);
    var q := Quot(w, n);
    QuotBound(w, n);
    Products(1, n, q);
    ValIs(last, now, was, value, 1);
    FirstStep(was, value, w, q);
    assert 1 * q == q;
    assert Val(last, now, was, value, 1) == Wrap(was + q) && Val(last, now, was, value, n) == value;
  }

  lemma FirstStep(was: int, value: int, w: int, q: int)
    requires Int64(was) && Int64(value) && !Int64(value - was) && w == Wrap(value - was)
    requires if w >= 0 then 0 < q < w else w < q < 0
    ensures if was <= value then Wrap(was + q) < was || Wrap(was + q) > value
            else Wrap(was + q) > was || Wrap(was + q) < value
  {
    assert if value > was then w == value - was - UINT64 else w == value - was + UINT64;
  }

  // ---------- equal steps ----------

  /** Times and values are inserted in equal steps, a step being the distance divided by the number of intervals,
      rounded towards zero; what is left over is less than one interval's worth and falls into the last one. There are
      as many inserted updates as full minutes in the gap. */
  lemma EqualSteps(last: int, now: int, was: int, value: int)
    requires Int64(last) && Clock(now) && Fires(last, now) && Int64(was) && Int64(value) && Int64(value - was)
    ensures var n, dt, dv := Intervals(last, now), Time(last, now, 1) - last, Val(last, now, was, value, 1) - was;
            && n == (now - last) / 60 + 1
            && (forall i :: 0 <= i < n ==>
                  Time(last, now, i) == last + i * dt && Val(last, now, was, value, i) == was + i * dv)
            && n * dt <= now - last < n * (dt + 1)
            && (if was <= value then 0 <= n * dv <= value - was < n * (dv + 1)
                else 0 >= n * dv >= value - was > n * (dv - 1))
  {
    RealGap(last, now);
    var n := Intervals(last, now);
    var dt, dv := Quot(now - last, n), Quot(value - was, n);
    QuotRounds(now - last, n);
    QuotRounds(value - was, n);
    ValueAt(last, now, was, value, 1);
    TimeIs(last, now, 1);
    forall i | 0 <= i < n
      ensures Time(last, now, i) == last + i * dt && Val(last, now, was, value, i) == was + i * dv
    {
      TimeIs(last, now, i);
      ValueAt(last, now, was, value, i);
    }
    hide Time, Val, Quot;
  }

  lemma QuotRounds(a: int, n: int)
    requires n >= 2
    ensures var q := Quot(a, n);
            if a >= 0 then 0 <= n * q <= a < n * (q + 1) else 0 >= n * q >= a > n * (q - 1)
  {
    var b: nat := if a >= 0 then a else -a;
    var q := b / n;
    Floor(b, n, q);
    Negated(n, q);
    assert Quot(a, n) == if a >= 0 then q else -q;
    hide Quot;
  }

  lemma Negated(n: int, q: int)
    ensures n * (-q) == -(n * q) && n * (-q - 1) == -(n * (q + 1))
  {
  }

  lemma Floor(b: nat, n: nat, q: nat)
    requires n > 0 && q == b / n
    ensures 0 <= n * q <= b < n * (q + 1)
  {
    assert b == n * q + b % n;
    assert n * (q + 1) == n * q + n;
  }

  lemma ValueAt(last: int, now: int, was: int, value: int, i: int)
    requires Fires(last, now) && Int64(was) && Int64(value) && Int64(value - was) && 0 <= i < Intervals(last, now)
    ensures Val(last, now, was, value, i) == was + i * Quot(value - was, Intervals(last, now))
  {
    var n := Intervals(last, now);
    var q := Quot(value - was, n);
    QuotBound(value - was, n);
    ValIs(last, now, was, value, i);
    hide Quot, Val;
    Products(i, n, q);
    assert Int64(was + i * q);
  }
}
