/** Trading-day arithmetic of main.py: the next market open and the countdown's
    hours/minutes/seconds split. Time zones are not modelled: a date-time is a local
    exchange date-time, the day counted from a Monday. */
module MarketClock {

  datatype DateTime = DateTime(day: int, hour: int, minute: int, second: int, microsecond: int)

  /** Python's `weekday()`: 0 is Monday, 5 Saturday, 6 Sunday (day 0 is a Monday). */
  function Weekday(day: int): (w: nat)
    ensures w < 7
  {
    day % 7
  }

  predicate IsWeekend(day: int) {
    Weekday(day) >= 5
  }

  /** Two weekend days are never followed by a third. */
  lemma NoThreeWeekendDays(d: int)
    requires IsWeekend(d) && IsWeekend(d + 1)
    ensures !IsWeekend(d + 2)
  {
  }

  /** The first day at or after `start` that is a weekday. */
  function FirstWeekdayFrom(start: int): (d: int)
    ensures start <= d <= start + 2
    ensures !IsWeekend(d)
    ensures forall k :: start <= k < d ==> IsWeekend(k)
  {
    if Weekday(start) == 5 then start + 2
    else if Weekday(start) == 6 then start + 1
    else start
  }

  /** `get_trading_day_open(tz, choice)` with "now" passed in: from today, or from tomorrow
      when the choice is 'next', step over Saturdays and Sundays, then set 09:30:00.000. */
  method GetTradingDayOpen(now: DateTime, choice: string) returns (r: DateTime)
    ensures r.hour == 9 && r.minute == 30 && r.second == 0 && r.microsecond == 0
    ensures !IsWeekend(r.day)
    ensures r.day == FirstWeekdayFrom(if choice == "next" then now.day + 1 else now.day)
    ensures choice == "next" ==> now.day < r.day <= now.day + 3
    ensures choice != "next" && !IsWeekend(now.day) ==> r.day == now.day
  {
    var target := now;
    if choice == "next" {
      target := now.(day := now.day + 1);
    }
    ghost var start := target.day;
    while IsWeekend(target.day)
      invariant start <= target.day <= start + 2
      invariant forall k :: start <= k < target.day ==> IsWeekend(k)
      decreases start + 2 - target.day
    {
      if target.day == start + 2 {
        NoThreeWeekendDays(start);
      }
      target := target.(day := target.day + 1);
    }
    r := target.(hour := 9, minute := 30, second := 0, microsecond := 0);
  }

  /** `divmod(n, 3600)` then `divmod(remainder, 60)` for the countdown display. */
  function CountdownParts(secondsLeft: nat): (r: (nat, nat, nat))
    ensures r.0 * 3600 + r.1 * 60 + r.2 == secondsLeft
    ensures r.1 < 60 && r.2 < 60
  {
    var hours, remainder := secondsLeft / 3600, secondsLeft % 3600;
    (hours, remainder / 60, remainder % 60)
  }
}
