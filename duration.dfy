/** The days/hours/minutes(/seconds) split of a millisecond difference that
    both variants display; both compute it with Math.floor over JavaScript's
    truncating `%`. */
module Duration {
  import opened Js

  const MsPerSecond := 1000
  const MsPerMinute := 60 * MsPerSecond
  const MsPerHour := 60 * MsPerMinute
  const MsPerDay := 24 * MsPerHour

  datatype Duration = Duration(days: int, hours: int, minutes: int)

  /** The running clock: a duration plus whole seconds. */
  datatype ClockFace = ClockFace(days: int, hours: int, minutes: int, seconds: int)

  function TotalMs(d: Duration): int {
    d.days * MsPerDay + d.hours * MsPerHour + d.minutes * MsPerMinute
  }

  /** `Math.floor(diff / D)`, `Math.floor((diff % D) / H)`, `Math.floor((diff % H) / M)`.
      For a positive divisor Dafny's `/` is the floor of the quotient. */
  function Split(diff: int): Duration {
    Duration(diff / MsPerDay, Rem(diff, MsPerDay) / MsPerHour, Rem(diff, MsPerHour) / MsPerMinute)
  }

  /** calculateDuration(startDate, endDate) of either variant. */
  function CalculateDuration(startDate: int, endDate: int): (r: Duration)
    ensures startDate <= endDate ==>
      && 0 <= r.days && 0 <= r.hours < 24 && 0 <= r.minutes < 60
      && TotalMs(r) <= endDate - startDate < TotalMs(r) + MsPerMinute
  {
    if startDate <= endDate then
      DurationBounds(endDate - startDate);
      Split(endDate - startDate)
    else Split(endDate - startDate)
  }

  /** The seconds digit of the running clock, `Math.floor((diff % M) / 1000)`. */
  function Face(diff: int): ClockFace {
    var d := Split(diff);
    ClockFace(d.days, d.hours, d.minutes, Rem(diff, MsPerMinute) / MsPerSecond)
  }

  /** Splitting `a` by `b` and then `c`: the remainder by `b * c` leaves the same
      remainder by `b`. */
  lemma ModOfMod(a: int, b: int, c: int)
    requires a >= 0 && b > 0 && c > 0
    ensures (a % (b * c)) % b == a % b
    ensures a / b == (a / (b * c)) * c + (a % (b * c)) / b
  {
    var q1, r1 := a / (b * c), a % (b * c);
    var q2, r2 := r1 / b, r1 % b;
    assert a == (q1 * c + q2) * b + r2 by {
      assert a == q1 * (b * c) + r1;
      assert r1 == q2 * b + r2;
      assert q1 * (b * c) == (q1 * c) * b;
    }
    DivModUnique(a, b, q1 * c + q2, r2);
  }

  /** For a non-negative difference the split is exact down to the minute:
      fewer than 24 hours, fewer than 60 minutes, and the whole minutes add up
      to the difference less under one minute. */
  lemma {:induction false} DurationBounds(diff: int)
    requires diff >= 0
    ensures var d := Split(diff);
      && 0 <= d.days && 0 <= d.hours < 24 && 0 <= d.minutes < 60
      && TotalMs(d) <= diff < TotalMs(d) + MsPerMinute
      && diff == TotalMs(d) + diff % MsPerMinute
  {
    var d := Split(diff);
    ModOfMod(diff, MsPerHour, 24);
    ModOfMod(diff, MsPerMinute, 60);
    var rd := diff % MsPerDay;
    var rh := diff % MsPerHour;
    assert d.hours == rd / MsPerHour;
    assert d.minutes == rh / MsPerMinute;
    assert rd < MsPerDay;
    assert d.hours < 24 by { DivBound(rd, MsPerHour, 24); }
    assert d.minutes < 60 by { DivBound(rh, MsPerMinute, 60); }
    assert diff == d.days * MsPerDay + rd;
    assert rd == d.hours * MsPerHour + rd % MsPerHour;
    assert rd % MsPerHour == rh;
    assert rh == d.minutes * MsPerMinute + rh % MsPerMinute;
    assert rh % MsPerMinute == diff % MsPerMinute;
  }

  /** and for the running clock, exact down to the second. */
  lemma FaceBounds(diff: int)
    requires diff >= 0
    ensures var f := Face(diff);
      && 0 <= f.hours < 24 && 0 <= f.minutes < 60 && 0 <= f.seconds < 60
      && Duration(f.days, f.hours, f.minutes) == Split(diff)
      && TotalMs(Split(diff)) + f.seconds * MsPerSecond <= diff
      && diff < TotalMs(Split(diff)) + f.seconds * MsPerSecond + MsPerSecond
  {
    DurationBounds(diff);
    var rm := diff % MsPerMinute;
    var sec := rm / MsPerSecond;
    assert Face(diff).seconds == sec;
    assert rm == sec * MsPerSecond + rm % MsPerSecond;
    assert sec < 60 by { DivBound(rm, MsPerSecond, 60); }
  }

  lemma DivBound(r: int, b: int, c: int)
    requires 0 <= r < b * c && b > 0 && c > 0
    ensures r / b < c
  {
    assert (r / b) * b <= r;
    LessCancel(r / b, c, b);
  }

  lemma LessCancel(x: int, y: int, b: int)
    requires b > 0 && x * b < y * b
    ensures x < y
  {
  }

  /** A start in the future: JavaScript's `%` keeps the sign, so every field
      comes out negative (one millisecond short reads "-1d -1h -1m"). */
  lemma FutureStart()
    ensures CalculateDuration(1, 0) == Duration(-1, -1, -1)
  {
  }
}
