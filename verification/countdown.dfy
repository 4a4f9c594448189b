/** The remaining-time text shown under each task with a deadline. The
    deadline and the current time are integer milliseconds; the page obtains
    them from `new Date(limit)` and `new Date()`, which are outside this model. */
module Countdown {
  import Decimal

  const MsPerMinute: nat := 60000
  const MsPerHour: nat := 3600000
  const MsPerDay: nat := 86400000

  /** The text shown once the deadline has passed ("expired"). */
  const Expired: string := "期限切れ"

  /** A countdown: past the deadline, or whole days, hours of the current day
      and minutes of the current hour. */
  datatype TimeLeft = Overdue | Left(days: nat, hours: nat, minutes: nat)

  /** The milliseconds a countdown accounts for. */
  function Millis(days: nat, hours: nat, minutes: nat): nat
  {
    days * MsPerDay + hours * MsPerHour + minutes * MsPerMinute
  }

  /** Floor division is determined by its quotient/remainder equation. */
  lemma DivUnique(n: int, k: int, q: int, r: int)
    requires k > 0 && 0 <= r < k && n == k * q + r
    ensures n / k == q && n % k == r
  {
    var q', r' := n / k, n % k;
    assert k * (q' - q) == r - r';
    MulOutside(k, q' - q);
  }

  /** A positive multiple of a whole number other than zero lies outside `(-k, k)`. */
  lemma MulOutside(k: int, m: int)
    requires k > 0
    ensures m >= 1 ==> k * m >= k
    ensures m <= -1 ==> k * m <= -k
  {
    assert k * m == k + k * (m - 1);
    assert k * m == -k + k * (m + 1);
  }

  /** Dividing by `a` and then by `b` is dividing by `a * b`. */
  lemma DivDiv(n: nat, a: nat, b: nat)
    requires a > 0 && b > 0
    ensures n / (a * b) == (n / a) / b
  {
    var x, r1 := n / a, n % a;
    var y, r2 := x / b, x % b;
    assert n == (a * b) * y + (a * r2 + r1) by {
      assert n == a * x + r1;
      assert x == b * y + r2;
      assert a * x == a * (b * y) + a * r2;
      assert a * (b * y) == (a * b) * y;
    }
    assert a * r2 + r1 < a * b by {
      assert r2 + 1 <= b;
      assert a * (r2 + 1) <= a * b;
    }
    assert 0 <= a * r2;
    DivUnique(n, a * b, y, a * r2 + r1);
  }

  /** The three floor divisions of the page, and why they decompose `d`. */
  lemma SplitBounds(d: nat)
    ensures (d / MsPerMinute) % 60 < 60 && (d / MsPerHour) % 24 < 24
    ensures Millis(d / MsPerDay, (d / MsPerHour) % 24, (d / MsPerMinute) % 60) <= d
    ensures d < Millis(d / MsPerDay, (d / MsPerHour) % 24, (d / MsPerMinute) % 60) + MsPerMinute
  {
    var q := d / MsPerMinute;
    var hTotal := q / 60;
    DivDiv(d, MsPerMinute, 60);
    DivDiv(d, MsPerHour, 24);
    DivDiv(q, 60, 24);
    assert d / MsPerHour == hTotal;
    assert d / MsPerDay == hTotal / 24;
    var days, hours, minutes := hTotal / 24, hTotal % 24, q % 60;
    assert q == 1440 * days + 60 * hours + minutes;
    assert Millis(days, hours, minutes) == MsPerMinute * q;
  }

  /** `deadline - now` split as the page splits it: floor division, no rounding. */
  function Split(difference: int): (t: TimeLeft)
    ensures t == Overdue <==> difference <= 0
    ensures t.Left? ==> t.hours < 24 && t.minutes < 60
    ensures t.Left? ==> Millis(t.days, t.hours, t.minutes) <= difference
    ensures t.Left? ==> difference < Millis(t.days, t.hours, t.minutes) + MsPerMinute
  {
    if difference > 0 then
      SplitBounds(difference);
      Left(difference / MsPerDay, (difference / MsPerHour) % 24, (difference / MsPerMinute) % 60)
    else
      Overdue
  }

  /** The split is the only decomposition with those bounds: any days, hours
      and minutes that account for `d` to the minute are the ones shown. */
  lemma SplitUnique(d: int, days: nat, hours: nat, minutes: nat)
    requires d > 0 && hours < 24 && minutes < 60
    requires Millis(days, hours, minutes) <= d < Millis(days, hours, minutes) + MsPerMinute
    ensures Split(d) == Left(days, hours, minutes)
  {
    var r := d - Millis(days, hours, minutes);
    DivUnique(d, MsPerMinute, 1440 * days + 60 * hours + minutes, r);
    DivUnique(1440 * days + 60 * hours + minutes, 60, 24 * days + hours, minutes);
    DivUnique(d, MsPerHour, 24 * days + hours, minutes * MsPerMinute + r);
    DivUnique(24 * days + hours, 24, days, hours);
    DivUnique(d, MsPerDay, days, hours * MsPerHour + minutes * MsPerMinute + r);
  }

  /** The text of a countdown: `"{days}d {hours}h {minutes}m"` or the marker. */
  function Render(t: TimeLeft): (s: string)
    ensures s == Expired <==> t == Overdue
  {
    match t
    case Overdue => Expired
    case Left(days, hours, minutes) =>
      var s := Decimal.Show(days) + "d " + Decimal.Show(hours) + "h " + Decimal.Show(minutes) + "m";
      assert s[|s| - 1] == 'm' != Expired[|Expired| - 1];
      s
  }

  /** `calculateRemainingTime`: the countdown text for a deadline, read at `now`. */
  function RemainingTime(deadline: int, now: int): (s: string)
    ensures s == Expired <==> deadline - now <= 0
  {
    Render(Split(deadline - now))
  }

  /** The countdown text names the floor decomposition of the difference, and
      only that one. */
  lemma RemainingTimeShowsSplit(deadline: int, now: int, days: nat, hours: nat, minutes: nat)
    requires hours < 24 && minutes < 60
    requires Millis(days, hours, minutes) <= deadline - now < Millis(days, hours, minutes) + MsPerMinute
    requires deadline - now > 0
    ensures RemainingTime(deadline, now) ==
      Decimal.Show(days) + "d " + Decimal.Show(hours) + "h " + Decimal.Show(minutes) + "m"
  {
    SplitUnique(deadline - now, days, hours, minutes);
  }

  /** Ninety minutes before the deadline the page shows `0d 1h 30m`. */
  lemma NinetyMinutes(now: int)
    ensures RemainingTime(now + 5400000, now) == "0d 1h 30m"
  {
    SplitUnique(5400000, 0, 1, 30);
    assert Decimal.Show(30) == "30";
  }
}
