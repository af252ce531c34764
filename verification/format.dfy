/**
 * `formatTime` (src/utils/format.ts): how long ago a moment was, in whole
 * seconds, minutes or hours, or the moment's date once it is a day or more
 * old. The current time is the parameter `nowMs`.
 */
module Format {
  import opened Text

  /**
   * The argument: `null`, the empty string, a moment (a `Date`, or a string `new
   * Date` reads) in milliseconds since the epoch, or a string `new Date` cannot read.
   */
  datatype When = Missing | Blank | At(ms: int) | Unreadable

  datatype Unit = Seconds | Minutes | Hours

  /** What is shown: "N/A", "{n}s ago" and so on, or the moment's local date. */
  datatype Label = NotAvailable | Ago(amount: int, unit: Unit) | LocalDate(ms: int) | InvalidDate

  const MsPerSecond: int := 1000
  const MsPerMinute: int := 60_000
  const MsPerHour: int := 3_600_000
  const MsPerDay: int := 86_400_000

  /**
   * `formatTime`. Every quotient is rounded down, so a moment in the future
   * gives a negative number of seconds. An unreadable date gives `NaN`, which
   * fails every comparison and ends at the date.
   */
  function FormatTime(when: When, nowMs: int): (l: Label)
    ensures when.Missing? || when.Blank? <==> l == NotAvailable
    ensures when == Unreadable <==> l == InvalidDate
    ensures when.At? ==>
      var diff := nowMs - when.ms;
      (diff < MsPerMinute <==> l.Ago? && l.unit == Seconds)
      && (MsPerMinute <= diff < MsPerHour <==> l.Ago? && l.unit == Minutes)
      && (MsPerHour <= diff < MsPerDay <==> l.Ago? && l.unit == Hours)
      && (MsPerDay <= diff <==> l == LocalDate(when.ms))
  {
    match when
    case Missing => NotAvailable
    case Blank => NotAvailable
    case Unreadable => InvalidDate
    case At(ms) =>
      var diff := nowMs - ms;
      var seconds := diff / 1000;
      var minutes := seconds / 60;
      var hours := minutes / 60;
      FloorSteps(diff);
      if seconds < 60 then Ago(seconds, Seconds)
      else if minutes < 60 then Ago(minutes, Minutes)
      else if hours < 24 then Ago(hours, Hours)
      else LocalDate(ms)
  }

  /** Rounding down in steps is rounding down once: seconds, then minutes, then hours. */
  lemma FloorSteps(diff: int)
    ensures diff / 1000 / 60 == diff / MsPerMinute
    ensures diff / 1000 / 60 / 60 == diff / MsPerHour
    ensures diff / 1000 < 60 <==> diff < MsPerMinute
    ensures diff / MsPerMinute < 60 <==> diff < MsPerHour
    ensures diff / MsPerHour < 24 <==> diff < MsPerDay
  {
    var s := diff / 1000;
    var m := s / 60;
    var h := m / 60;
    assert diff == s * 1000 + diff % 1000;
    assert s == m * 60 + s % 60;
    assert m == h * 60 + m % 60;
    assert diff == m * 60_000 + (s % 60) * 1000 + diff % 1000;
    assert diff == h * 3_600_000 + (m % 60) * 60_000 + (s % 60) * 1000 + diff % 1000;
  }

  /**
   * The number shown fits its unit: seconds below 60 (negative for a future
   * moment), minutes from 1 to 59, hours from 1 to 23; and it is the elapsed
   * time rounded down to that unit.
   */
  lemma AmountsInRange(t: int, nowMs: int)
    ensures var l := FormatTime(At(t), nowMs);
      l.Ago? ==>
        (l.unit == Seconds ==> l.amount < 60 && l.amount * MsPerSecond <= nowMs - t < (l.amount + 1) * MsPerSecond)
        && (l.unit == Minutes ==> 1 <= l.amount < 60 && l.amount * MsPerMinute <= nowMs - t < (l.amount + 1) * MsPerMinute)
        && (l.unit == Hours ==> 1 <= l.amount < 24 && l.amount * MsPerHour <= nowMs - t < (l.amount + 1) * MsPerHour)
  {
    var diff := nowMs - t;
    FloorSteps(diff);
    assert diff == (diff / 1000) * 1000 + diff % 1000;
    assert diff == (diff / 60_000) * 60_000 + diff % 60_000;
    assert diff == (diff / 3_600_000) * 3_600_000 + diff % 3_600_000;
  }

  function UnitSuffix(u: Unit): string {
    match u
    case Seconds => "s ago"
    case Minutes => "m ago"
    case Hours => "h ago"
  }

  /** The text shown. The local date's wording is left to the parameter `localDate`. */
  function Render(l: Label, localDate: int -> string): (r: string)
    ensures l.Ago? ==> |r| > 5 && r[|r| - 4..] == " ago" && (r[0] == '-' <==> l.amount < 0)
    ensures l.NotAvailable? || l.InvalidDate? ==> !(|r| >= 4 && r[|r| - 4..] == " ago")
  {
    match l
    case NotAvailable => "N/A"
    case Ago(n, u) => IntToString(n) + UnitSuffix(u)
    case LocalDate(ms) => localDate(ms)
    case InvalidDate => "Invalid Date"
  }

  /** Two different relative labels never read alike, nor like "N/A". */
  lemma RenderDistinguishes(a: Label, b: Label, localDate: int -> string)
    requires a.Ago? || a.NotAvailable?
    requires b.Ago? || b.NotAvailable?
    ensures Render(a, localDate) == Render(b, localDate) <==> a == b
  {
    if a.Ago? && b.Ago? && Render(a, localDate) == Render(b, localDate) {
      var s := Render(a, localDate);
      var na, nb := IntToString(a.amount), IntToString(b.amount);
      assert |na| == |nb|;
      assert s[..|na|] == na && s[..|nb|] == nb;
      assert s[|na|] == UnitSuffix(a.unit)[0] == UnitSuffix(b.unit)[0];
      IntToStringRoundTrip(a.amount);
      IntToStringRoundTrip(b.amount);
    }
  }
}
