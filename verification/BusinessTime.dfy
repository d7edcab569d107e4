/** Business-calendar arithmetic (serviceops_core/business_time.py), on local wall-clock
    seconds. Second 0 is midnight at the start of a Monday, so day d has weekday d % 7. */
module BusinessTime {
  import opened Outcomes
  import opened Basics

  const DAY := 86400

  /** `opens` and `closes` are times of day, in seconds. */
  datatype Calendar = Calendar(weekdays: set<int>, opens: int, closes: int)

  function DayOf(t: int): int { t / DAY }

  function Opening(cal: Calendar, day: int): int { day * DAY + cal.opens }

  function Closing(cal: Calendar, day: int): int { day * DAY + cal.closes }

  /** Without its seconds. */
  function Truncated(t: int): int { 60 * (t / 60) }

  predicate ValidCalendar(cal: Calendar) {
    && |cal.weekdays| != 0 && (forall d :: d in cal.weekdays ==> 0 <= d < 7)
    && 0 <= cal.opens < cal.closes < DAY
  }

  /** `validate_calendar`; the opening times are times of day by their type. */
  method ValidateCalendar(knownZone: bool, cal: Calendar) returns (r: Result<()>)
    requires 0 <= cal.opens < DAY && 0 <= cal.closes < DAY
    ensures r.Ok? <==> knownZone && ValidCalendar(cal)
    ensures r.Err? ==> r.error == BadCalendar
  {
    if !knownZone {
      return Err(BadCalendar);
    }
    if cal.weekdays == {} || exists d :: d in cal.weekdays && !(0 <= d < 7) {
      return Err(BadCalendar);
    }
    if cal.opens >= cal.closes {
      return Err(BadCalendar);
    }
    return Ok(());
  }

  /** A listed weekday that is not a holiday. */
  predicate BusinessDay(cal: Calendar, holidays: set<int>, day: int) {
    day !in holidays && day % 7 in cal.weekdays
  }

  // ---------------------------------------------------------------- the loop, one iteration at a time

  /** The loop ends when nothing remains. */
  datatype Cursor = Cursor(at: int, remaining: nat)

  function LoopStep(cal: Calendar, holidays: set<int>, c: Cursor): Cursor
    requires c.remaining > 0
  {
    var day := DayOf(c.at);
    if day in holidays || day % 7 !in cal.weekdays || c.at >= Closing(cal, day) then
      Cursor(Opening(cal, day + 1), c.remaining)
    else
      var at := Max(c.at, Opening(cal, day));
      var usable := (Closing(cal, day) - at) / 60;
      if c.remaining <= usable then Cursor(at + 60 * c.remaining, 0)
      else Cursor(Opening(cal, day + 1), c.remaining - usable)
  }

  function Iterate(cal: Calendar, holidays: set<int>, c: Cursor, n: nat): Cursor
    decreases n
  {
    if n == 0 || c.remaining == 0 then c else Iterate(cal, holidays, LoopStep(cal, holidays, c), n - 1)
  }

  ghost predicate Ends(cal: Calendar, holidays: set<int>, c: Cursor) {
    exists n :: Iterate(cal, holidays, c, n).remaining == 0
  }

  /** A whole minute fits between opening and closing. */
  predicate HoldsAMinute(cal: Calendar) { cal.closes - cal.opens >= 60 }

  // ---------------------------------------------------------------- business days ahead

  lemma BusinessDayAhead(cal: Calendar, holidays: set<int>, day: int) returns (open: int)
    requires ValidCalendar(cal)
    ensures open >= day && BusinessDay(cal, holidays, open)
  {
    var past := UpperBound(holidays, day) + 1;
    var w := Member(cal.weekdays);
    open := past + (w - past) % 7;
    assert (past + (w - past) % 7) % 7 == w;
  }

  lemma BusinessDayExists(cal: Calendar, holidays: set<int>, day: int)
    requires ValidCalendar(cal)
    ensures exists r :: r >= day && BusinessDay(cal, holidays, r)
  {
    var r := BusinessDayAhead(cal, holidays, day);
  }

  /** The first business day from `day` on. */
  ghost function FirstBusinessDay(cal: Calendar, holidays: set<int>, day: int): (r: int)
    requires ValidCalendar(cal)
    ensures r >= day && BusinessDay(cal, holidays, r)
    ensures forall d :: day <= d < r ==> !BusinessDay(cal, holidays, d)
  {
    BusinessDayExists(cal, holidays, day);
    var limit :| limit >= day && BusinessDay(cal, holidays, limit);
    FirstUpTo(cal, holidays, day, limit)
  }

  ghost function FirstUpTo(cal: Calendar, holidays: set<int>, day: int, limit: int): (r: int)
    requires day <= limit && BusinessDay(cal, holidays, limit)
    ensures day <= r && BusinessDay(cal, holidays, r)
    ensures forall d :: day <= d < r ==> !BusinessDay(cal, holidays, d)
    decreases limit - day
  {
    if BusinessDay(cal, holidays, day) then day else FirstUpTo(cal, holidays, day + 1, limit)
  }

  /** A whole minute can still be worked on the day of `t`. */
  predicate CanWork(cal: Calendar, holidays: set<int>, t: int) {
    var day := DayOf(t);
    BusinessDay(cal, holidays, day) && Max(t, Opening(cal, day)) + 60 <= Closing(cal, day)
  }

  /** Days until work can go on. */
  ghost function DaysAway(cal: Calendar, holidays: set<int>, t: int): nat
    requires ValidCalendar(cal)
  {
    FirstBusinessDay(cal, holidays, if CanWork(cal, holidays, t) then DayOf(t) else DayOf(t) + 1) - DayOf(t)
  }

  lemma OpeningDay(cal: Calendar, day: int)
    requires ValidCalendar(cal)
    ensures DayOf(Opening(cal, day)) == day && DayOf(Closing(cal, day)) == day
  {
  }

  /** An iteration uses up minutes or brings the next business day nearer. */
  lemma LoopProgress(cal: Calendar, holidays: set<int>, c: Cursor)
    requires ValidCalendar(cal) && HoldsAMinute(cal) && c.remaining > 0
    ensures var n := LoopStep(cal, holidays, c);
      || n.remaining < c.remaining
      || (n.remaining == c.remaining && DaysAway(cal, holidays, n.at) < DaysAway(cal, holidays, c.at))
  {
    var day := DayOf(c.at);
    if !CanWork(cal, holidays, c.at) {
      OpeningDay(cal, day + 1);
      var first := FirstBusinessDay(cal, holidays, day + 1);
      if !BusinessDay(cal, holidays, day + 1) {
        assert FirstBusinessDay(cal, holidays, day + 2) == first;
      }
    }
  }

  /** The result of the loop. */
  function Due(cal: Calendar, holidays: set<int>, at: int, remaining: nat): int
    requires ValidCalendar(cal) && HoldsAMinute(cal)
    decreases remaining, DaysAway(cal, holidays, at)
  {
    if remaining == 0 then at
    else
      LoopProgress(cal, holidays, Cursor(at, remaining));
      var n := LoopStep(cal, holidays, Cursor(at, remaining));
      Due(cal, holidays, n.at, n.remaining)
  }

  lemma {:induction false} LoopReachesDue(cal: Calendar, holidays: set<int>, at: int, remaining: nat) returns (n: nat)
    requires ValidCalendar(cal) && HoldsAMinute(cal)
    ensures Iterate(cal, holidays, Cursor(at, remaining), n) == Cursor(Due(cal, holidays, at, remaining), 0)
    decreases remaining, DaysAway(cal, holidays, at)
  {
    n := 0;
    if remaining > 0 {
      LoopProgress(cal, holidays, Cursor(at, remaining));
      var next := LoopStep(cal, holidays, Cursor(at, remaining));
      n := LoopReachesDue(cal, holidays, next.at, next.remaining);
      n := n + 1;
    }
  }

  lemma {:induction false} ShortWindowKeepsAll(cal: Calendar, holidays: set<int>, c: Cursor, n: nat)
    requires ValidCalendar(cal) && !HoldsAMinute(cal) && c.remaining > 0
    ensures Iterate(cal, holidays, c, n).remaining == c.remaining
    decreases n
  {
    if n > 0 {
      assert LoopStep(cal, holidays, c).remaining == c.remaining;
      ShortWindowKeepsAll(cal, holidays, LoopStep(cal, holidays, c), n - 1);
    }
  }

  /** The loop ends, for this and every other start, duration and finite set of holidays, if and only if a whole
      minute fits between opening and closing. */
  lemma LoopEndsExactly(cal: Calendar, holidays: set<int>, start: int, minutes: nat)
    requires ValidCalendar(cal) && minutes >= 1
    ensures Ends(cal, holidays, Cursor(Truncated(start), minutes)) <==> HoldsAMinute(cal)
  {
    var c := Cursor(Truncated(start), minutes);
    if HoldsAMinute(cal) {
      var n := LoopReachesDue(cal, holidays, c.at, c.remaining);
    } else {
      forall n: nat ensures Iterate(cal, holidays, c, n).remaining != 0 {
        ShortWindowKeepsAll(cal, holidays, c, n);
      }
    }
  }

  /** `add_business_minutes`. `start` is truncated to the minute. */
  method AddBusinessMinutes(start: int, minutes: int, cal: Calendar, holidays: set<int>) returns (r: Result<int>)
    requires ValidCalendar(cal) && HoldsAMinute(cal)
    ensures minutes < 1 ==> r == Err(BadDuration)
    ensures minutes >= 1 ==> r == Ok(Due(cal, holidays, Truncated(start), minutes))
  {
    if minutes < 1 {
      return Err(BadDuration);
    }
    var cursor := 60 * (start / 60);
    var remaining: nat := minutes;
    ghost var goal := Due(cal, holidays, cursor, remaining);
    while remaining > 0
      invariant goal == Due(cal, holidays, cursor, remaining)
      decreases remaining, DaysAway(cal, holidays, cursor)
    {
      LoopProgress(cal, holidays, Cursor(cursor, remaining));
      ghost var next := LoopStep(cal, holidays, Cursor(cursor, remaining));
      assert goal == Due(cal, holidays, next.at, next.remaining);
      var day := DayOf(cursor);
      var dayOpen, dayClose := Opening(cal, day), Closing(cal, day);
      if day in holidays || day % 7 !in cal.weekdays || cursor >= dayClose {
        cursor := dayOpen + DAY;
        assert next == Cursor(cursor, remaining);
        continue;
      }
      if cursor < dayOpen {
        cursor := dayOpen;
      }
      var usable := (dayClose - cursor) / 60;
      if remaining <= usable {
        assert next == Cursor(cursor + 60 * remaining, 0);
        return Ok(cursor + 60 * remaining);
      }
      remaining := remaining - usable;
      cursor := dayOpen + DAY;
      assert next == Cursor(cursor, remaining);
    }
    return Ok(cursor);
  }

  // ---------------------------------------------------------------- what a deadline is, for every calendar

  /** Whole minutes that fit into the opening hours of one day, between `from` and `to`. */
  function DayRoom(cal: Calendar, holidays: set<int>, day: int, from: int, to: int): nat {
    var seconds := Min(Closing(cal, day), to) - Max(Opening(cal, day), from);
    if BusinessDay(cal, holidays, day) && seconds > 0 then seconds / 60 else 0
  }

  function RoomFrom(cal: Calendar, holidays: set<int>, day: int, last: int, from: int, to: int): nat
    decreases last - day
  {
    if day > last then 0
    else DayRoom(cal, holidays, day, from, to) + RoomFrom(cal, holidays, day + 1, last, from, to)
  }

  /** Whole minutes that fit into the opening hours of all days, between `from` and `to`. */
  function Room(cal: Calendar, holidays: set<int>, from: int, to: int): nat {
    RoomFrom(cal, holidays, DayOf(from), DayOf(to), from, to)
  }

  /** `x` is the earliest time by which `minutes` whole business minutes fit in, and no more do. */
  ghost predicate FitsBy(cal: Calendar, holidays: set<int>, from: int, minutes: nat, x: int) {
    && x >= from
    && Room(cal, holidays, from, x) == minutes
    && forall t :: from <= t < x ==> Room(cal, holidays, from, t) < minutes
  }

  /** On later days it does not matter when the first day began. */
  lemma {:induction false} LaterDays(
    cal: Calendar, holidays: set<int>, day: int, last: int, from: int, from': int, to: int)
    requires from <= Opening(cal, day) && from' <= Opening(cal, day)
    ensures RoomFrom(cal, holidays, day, last, from, to) == RoomFrom(cal, holidays, day, last, from', to)
    decreases last - day
  {
    if day <= last {
      LaterDays(cal, holidays, day + 1, last, from, from', to);
    }
  }

  /** The room up to a later day: what is left of today, and the rest from the next opening on. */
  lemma RoomSplits(cal: Calendar, holidays: set<int>, from: int, to: int)
    requires ValidCalendar(cal)
    ensures var day := DayOf(from);
      if to >= Opening(cal, day + 1)
      then Room(cal, holidays, from, to)
        == DayRoom(cal, holidays, day, from, Closing(cal, day)) + Room(cal, holidays, Opening(cal, day + 1), to)
      else to >= from ==> Room(cal, holidays, from, to) == DayRoom(cal, holidays, day, from, to)
  {
    var day, last := DayOf(from), DayOf(to);
    OpeningDay(cal, day + 1);
    if to >= Opening(cal, day + 1) {
      assert last >= day + 1;
      LaterDays(cal, holidays, day + 1, last, from, Opening(cal, day + 1), to);
    } else if to >= from {
      assert day <= last <= day + 1;
      assert RoomFrom(cal, holidays, last + 1, last, from, to) == 0;
      if last == day + 1 {
        assert DayRoom(cal, holidays, day + 1, from, to) == 0;
        assert RoomFrom(cal, holidays, day + 1, last, from, to) == 0;
      } else {
        assert Room(cal, holidays, from, to) == DayRoom(cal, holidays, day, from, to);
      }
    }
  }

  lemma DayRoomGrows(cal: Calendar, holidays: set<int>, day: int, from: int, to: int, to': int)
    requires to <= to'
    ensures DayRoom(cal, holidays, day, from, to) <= DayRoom(cal, holidays, day, from, to')
    ensures DayRoom(cal, holidays, day, from, to) <= DayRoom(cal, holidays, day, from, Closing(cal, day))
  {
  }

  /** An iteration that goes on to the next day leaves the same goal. */
  lemma NextDayFits(cal: Calendar, holidays: set<int>, c: Cursor, x: int)
    requires ValidCalendar(cal) && c.remaining > 0
    requires var n := LoopStep(cal, holidays, c); n.remaining > 0 && FitsBy(cal, holidays, n.at, n.remaining, x)
    ensures FitsBy(cal, holidays, c.at, c.remaining, x)
  {
    var day, n := DayOf(c.at), LoopStep(cal, holidays, c);
    var used := DayRoom(cal, holidays, day, c.at, Closing(cal, day));
    assert n.at == Opening(cal, day + 1) && c.remaining == used + n.remaining;
    assert c.at < n.at;
    RoomSplits(cal, holidays, c.at, x);
    forall t | c.at <= t < x ensures Room(cal, holidays, c.at, t) < c.remaining {
      RoomSplits(cal, holidays, c.at, t);
      DayRoomGrows(cal, holidays, day, c.at, t, t);
    }
  }

  /** The last iteration. */
  lemma LastDayFits(cal: Calendar, holidays: set<int>, c: Cursor)
    requires ValidCalendar(cal) && c.remaining > 0 && LoopStep(cal, holidays, c).remaining == 0
    ensures FitsBy(cal, holidays, c.at, c.remaining, LoopStep(cal, holidays, c).at)
  {
    var day, x := DayOf(c.at), LoopStep(cal, holidays, c).at;
    var at := Max(c.at, Opening(cal, day));
    assert x == at + 60 * c.remaining <= Closing(cal, day);
    RoomSplits(cal, holidays, c.at, x);
    assert DayRoom(cal, holidays, day, c.at, x) == c.remaining;
    forall t | c.at <= t < x ensures Room(cal, holidays, c.at, t) < c.remaining {
      RoomSplits(cal, holidays, c.at, t);
      assert t - at < 60 * c.remaining;
    }
  }

  lemma NothingFits(cal: Calendar, holidays: set<int>, from: int)
    ensures Room(cal, holidays, from, from) == 0
  {
    assert RoomFrom(cal, holidays, DayOf(from) + 1, DayOf(from), from, from) == 0;
  }

  /** The deadline is the earliest time by which that many whole minutes fit into opening hours, counted from the
      truncated start, whatever the opening times are. */
  lemma {:induction false} DueFits(cal: Calendar, holidays: set<int>, at: int, remaining: nat)
    requires ValidCalendar(cal) && HoldsAMinute(cal)
    ensures FitsBy(cal, holidays, at, remaining, Due(cal, holidays, at, remaining))
    decreases remaining, DaysAway(cal, holidays, at)
  {
    if remaining == 0 {
      NothingFits(cal, holidays, at);
    } else {
      var c := Cursor(at, remaining);
      LoopProgress(cal, holidays, c);
      var n := LoopStep(cal, holidays, c);
      DueFits(cal, holidays, n.at, n.remaining);
      if n.remaining == 0 {
        LastDayFits(cal, holidays, c);
      } else {
        NextDayFits(cal, holidays, c, Due(cal, holidays, n.at, n.remaining));
      }
    }
  }

  /** Nothing else is: this determines the deadline. */
  lemma DueExactly(cal: Calendar, holidays: set<int>, at: int, remaining: nat, x: int)
    requires ValidCalendar(cal) && HoldsAMinute(cal)
    ensures FitsBy(cal, holidays, at, remaining, x) <==> x == Due(cal, holidays, at, remaining)
  {
    DueFits(cal, holidays, at, remaining);
  }

  // ---------------------------------------------------------------- opening on a whole minute

  predicate OnTheMinute(t: int) { t == 60 * (t / 60) }

  predicate OpensOnTheMinute(cal: Calendar) { OnTheMinute(cal.opens) }

  lemma IsMinute(t: int, k: int)
    requires t == 60 * k
    ensures OnTheMinute(t)
  {
  }

  lemma PlusMinutes(t: int, n: int)
    requires OnTheMinute(t)
    ensures OnTheMinute(t + 60 * n)
  {
    IsMinute(t + 60 * n, t / 60 + n);
  }

  lemma OpeningOnTheMinute(cal: Calendar, day: int)
    requires OpensOnTheMinute(cal)
    ensures OnTheMinute(Opening(cal, day))
  {
    IsMinute(Opening(cal, day), 1440 * day + cal.opens / 60);
  }

  lemma DayIs(t: int, day: int)
    requires day * DAY <= t < (day + 1) * DAY
    ensures DayOf(t) == day
  {
  }

  /** The minute [t, t + 60) counts. */
  predicate BusinessMinute(cal: Calendar, holidays: set<int>, t: int) {
    BusinessDay(cal, holidays, DayOf(t)) && Opening(cal, DayOf(t)) <= t && t + 60 <= Closing(cal, DayOf(t))
  }

  /** Business minutes in [from, to), one minute at a time. */
  function Elapsed(cal: Calendar, holidays: set<int>, from: int, to: int): nat
    decreases (to - from)
  {
    if from >= to then 0
    else (if BusinessMinute(cal, holidays, from) then 1 else 0) + Elapsed(cal, holidays, from + 60, to)
  }

  /** A minute of the clock lies in one day. */
  lemma NextMinute(t: int)
    requires OnTheMinute(t)
    ensures t + 60 <= (DayOf(t) + 1) * DAY
    ensures DayOf(t + 60) == DayOf(t) || (DayOf(t + 60) == DayOf(t) + 1 && t + 60 == (DayOf(t) + 1) * DAY)
  {
    var m, day := t / 60, DayOf(t);
    assert 60 * m < 60 * (1440 * (day + 1));
    assert m + 1 <= 1440 * (day + 1);
    if t + 60 < (day + 1) * DAY {
      DayIs(t + 60, day);
    } else {
      DayIs(t + 60, day + 1);
    }
  }

  /** A minute before opening ends before opening. */
  lemma MinuteBefore(t: int, open: int)
    requires OnTheMinute(t) && OnTheMinute(open) && t < open
    ensures t + 60 <= open
  {
    assert t / 60 < open / 60;
  }

  lemma DayRoomMinute(cal: Calendar, holidays: set<int>, day: int, from: int, to: int)
    requires ValidCalendar(cal) && day == DayOf(from) && OnTheMinute(Opening(cal, day))
    requires OnTheMinute(from) && from + 60 <= to
    ensures DayRoom(cal, holidays, day, from, to)
      == (if BusinessMinute(cal, holidays, from) then 1 else 0) + DayRoom(cal, holidays, day, from + 60, to)
  {
    var open, end := Opening(cal, day), Min(Closing(cal, day), to);
    if from < open {
      MinuteBefore(from, open);
    } else if from + 60 <= end {
      assert (end - from) / 60 == 1 + (end - (from + 60)) / 60;
    }
  }

  /** One minute of the clock. */
  lemma RoomMinute(cal: Calendar, holidays: set<int>, from: int, to: int)
    requires ValidCalendar(cal) && OpensOnTheMinute(cal) && OnTheMinute(from) && from + 60 <= to
    ensures Room(cal, holidays, from, to)
      == (if BusinessMinute(cal, holidays, from) then 1 else 0) + Room(cal, holidays, from + 60, to)
  {
    var day, last, next := DayOf(from), DayOf(to), from + 60;
    OpeningOnTheMinute(cal, day);
    DayRoomMinute(cal, holidays, day, from, to);
    NextMinute(from);
    LaterDays(cal, holidays, day + 1, last, from, next, to);
    if DayOf(next) == day + 1 {
      assert DayRoom(cal, holidays, day, next, to) == 0;
    }
  }

  /** Then the whole minutes that fit are the business minutes on the clock. */
  lemma {:induction false} RoomIsElapsed(cal: Calendar, holidays: set<int>, from: int, n: nat)
    requires ValidCalendar(cal) && OpensOnTheMinute(cal) && OnTheMinute(from)
    ensures Room(cal, holidays, from, from + 60 * n) == Elapsed(cal, holidays, from, from + 60 * n)
    decreases n
  {
    var to := from + 60 * n;
    if n > 0 {
      RoomMinute(cal, holidays, from, to);
      PlusMinutes(from, 1);
      RoomIsElapsed(cal, holidays, from + 60, n - 1);
      assert (from + 60) + 60 * (n - 1) == to;
    } else {
      NothingFits(cal, holidays, from);
    }
  }

  lemma MinutesBetween(from: int, to: int) returns (n: nat)
    requires OnTheMinute(from) && OnTheMinute(to) && from <= to
    ensures to == from + 60 * n
  {
    n := to / 60 - from / 60;
  }

  lemma StepOnTheMinute(cal: Calendar, holidays: set<int>, c: Cursor)
    requires OpensOnTheMinute(cal) && OnTheMinute(c.at) && c.remaining > 0
    ensures OnTheMinute(LoopStep(cal, holidays, c).at)
  {
    var day := DayOf(c.at);
    OpeningOnTheMinute(cal, day);
    OpeningOnTheMinute(cal, day + 1);
    PlusMinutes(c.at, c.remaining);
    PlusMinutes(Opening(cal, day), c.remaining);
    StepGoes(cal, holidays, c);
  }

  /** An iteration goes to the next opening or ends on the day it is in. */
  lemma StepGoes(cal: Calendar, holidays: set<int>, c: Cursor)
    requires c.remaining > 0
    ensures var n, day := LoopStep(cal, holidays, c), DayOf(c.at);
      || n.at == Opening(cal, day + 1)
      || n == Cursor(c.at + 60 * c.remaining, 0)
      || n == Cursor(Opening(cal, day) + 60 * c.remaining, 0)
  {
  }

  lemma {:induction false} DueOnTheMinute(cal: Calendar, holidays: set<int>, at: int, remaining: nat)
    requires ValidCalendar(cal) && HoldsAMinute(cal) && OpensOnTheMinute(cal) && OnTheMinute(at)
    ensures OnTheMinute(Due(cal, holidays, at, remaining))
    decreases remaining, DaysAway(cal, holidays, at)
  {
    if remaining > 0 {
      var c := Cursor(at, remaining);
      LoopProgress(cal, holidays, c);
      StepOnTheMinute(cal, holidays, c);
      var n := LoopStep(cal, holidays, c);
      DueOnTheMinute(cal, holidays, n.at, n.remaining);
    }
  }

  /** For a calendar that opens on a whole minute, such as every stored one, the deadline is the earliest minute
      of the clock at which exactly that many business minutes have elapsed. */
  lemma DeadlineIsEarliest(cal: Calendar, holidays: set<int>, from: int, minutes: nat)
    requires ValidCalendar(cal) && HoldsAMinute(cal) && OpensOnTheMinute(cal) && OnTheMinute(from)
    ensures var r := Due(cal, holidays, from, minutes);
      && r >= from && OnTheMinute(r)
      && Elapsed(cal, holidays, from, r) == minutes
      && forall t :: from <= t < r && OnTheMinute(t) ==> Elapsed(cal, holidays, from, t) < minutes
  {
    var r := Due(cal, holidays, from, minutes);
    DueFits(cal, holidays, from, minutes);
    DueOnTheMinute(cal, holidays, from, minutes);
    forall t | from <= t <= r && OnTheMinute(t)
      ensures Elapsed(cal, holidays, from, t) == Room(cal, holidays, from, t)
    {
      var n := MinutesBetween(from, t);
      RoomIsElapsed(cal, holidays, from, n);
    }
  }

  lemma {:induction false} ElapsedSplits(cal: Calendar, holidays: set<int>, a: int, n: nat, c: int)
    requires a + 60 * n <= c
    ensures Elapsed(cal, holidays, a, c)
      == Elapsed(cal, holidays, a, a + 60 * n) + Elapsed(cal, holidays, a + 60 * n, c)
    decreases n
  {
    if n > 0 {
      ElapsedSplits(cal, holidays, a + 60, n - 1, c);
      assert (a + 60) + 60 * (n - 1) == a + 60 * n;
    }
  }

  // ---------------------------------------------------------------- adding twice

  /** An iteration for `a + b` minutes starts as one for `a` minutes does. */
  lemma SameIteration(cal: Calendar, holidays: set<int>, from: int, a: nat, b: nat)
    requires a > 0 && LoopStep(cal, holidays, Cursor(from, a)).remaining > 0
    ensures var n := LoopStep(cal, holidays, Cursor(from, a));
      LoopStep(cal, holidays, Cursor(from, a + b)) == Cursor(n.at, n.remaining + b)
  {
  }

  /** An iteration for `a + b` minutes that could have stopped after `a` goes where one for `b` goes from there. */
  lemma StoppedIteration(cal: Calendar, holidays: set<int>, from: int, a: nat, b: nat)
    requires ValidCalendar(cal) && a > 0 && b > 0 && LoopStep(cal, holidays, Cursor(from, a)).remaining == 0
    ensures var x := LoopStep(cal, holidays, Cursor(from, a)).at;
      LoopStep(cal, holidays, Cursor(from, a + b)) == LoopStep(cal, holidays, Cursor(x, b))
  {
    var day := DayOf(from);
    var at, close := Max(from, Opening(cal, day)), Closing(cal, day);
    var x := at + 60 * a;
    assert LoopStep(cal, holidays, Cursor(from, a)).at == x <= close;
    DayIs(x, day);
    assert (close - x) / 60 == (close - at) / 60 - a;
  }

  /** Without truncating in between, adding `a` and then `b` is adding `a + b`. */
  lemma {:induction false} DueComposes(cal: Calendar, holidays: set<int>, from: int, a: nat, b: nat)
    requires ValidCalendar(cal) && HoldsAMinute(cal)
    ensures Due(cal, holidays, Due(cal, holidays, from, a), b) == Due(cal, holidays, from, a + b)
    decreases a, DaysAway(cal, holidays, from)
  {
    if a > 0 && b > 0 {
      var c := Cursor(from, a);
      LoopProgress(cal, holidays, c);
      var n := LoopStep(cal, holidays, c);
      if n.remaining > 0 {
        DueComposes(cal, holidays, n.at, n.remaining, b);
        ComposesOnward(cal, holidays, from, a, b, n);
      } else {
        ComposesAtEnd(cal, holidays, from, a, b, n.at);
      }
    }
  }

  lemma ComposesOnward(cal: Calendar, holidays: set<int>, from: int, a: nat, b: nat, n: Cursor)
    requires ValidCalendar(cal) && HoldsAMinute(cal) && a > 0 && b > 0
    requires n == LoopStep(cal, holidays, Cursor(from, a)) && n.remaining > 0
    requires Due(cal, holidays, Due(cal, holidays, n.at, n.remaining), b) == Due(cal, holidays, n.at, n.remaining + b)
    ensures Due(cal, holidays, Due(cal, holidays, from, a), b) == Due(cal, holidays, from, a + b)
  {
    SameIteration(cal, holidays, from, a, b);
    DueUnfolds(cal, holidays, from, a);
    DueUnfolds(cal, holidays, from, a + b);
  }

  lemma ComposesAtEnd(cal: Calendar, holidays: set<int>, from: int, a: nat, b: nat, x: int)
    requires ValidCalendar(cal) && HoldsAMinute(cal) && a > 0 && b > 0
    requires Cursor(x, 0) == LoopStep(cal, holidays, Cursor(from, a))
    ensures Due(cal, holidays, Due(cal, holidays, from, a), b) == Due(cal, holidays, from, a + b)
  {
    StoppedIteration(cal, holidays, from, a, b);
    DueUnfolds(cal, holidays, from, a);
    DueUnfolds(cal, holidays, from, a + b);
    DueUnfolds(cal, holidays, x, b);
  }

  lemma DueUnfolds(cal: Calendar, holidays: set<int>, at: int, remaining: nat)
    requires ValidCalendar(cal) && HoldsAMinute(cal) && remaining > 0
    ensures var n := LoopStep(cal, holidays, Cursor(at, remaining));
      Due(cal, holidays, at, remaining) == Due(cal, holidays, n.at, n.remaining)
  {
    LoopProgress(cal, holidays, Cursor(at, remaining));
  }

  lemma LastStepInHours(cal: Calendar, holidays: set<int>, c: Cursor)
    requires ValidCalendar(cal) && c.remaining > 0 && LoopStep(cal, holidays, c).remaining == 0
    ensures var x, day := LoopStep(cal, holidays, c).at, DayOf(c.at);
      && DayOf(x) == day && BusinessDay(cal, holidays, day)
      && x == Max(c.at, Opening(cal, day)) + 60 * c.remaining <= Closing(cal, day)
  {
    var day := DayOf(c.at);
    var x := Max(c.at, Opening(cal, day)) + 60 * c.remaining;
    assert LoopStep(cal, holidays, c) == Cursor(x, 0) && x <= Closing(cal, day);
    DayIs(x, day);
  }

  /** A time on a whole minute, or whole minutes after the opening of its day. */
  ghost predicate Regular(cal: Calendar, x: int) {
    OnTheMinute(x) || exists j :: j >= 0 && AfterOpening(cal, x, j)
  }

  predicate AfterOpening(cal: Calendar, x: int, j: int) { x == Opening(cal, DayOf(x)) + 60 * j }

  /** A deadline lies in opening hours, and is regular when the start was. */
  lemma {:induction false} DueInHours(cal: Calendar, holidays: set<int>, at: int, remaining: nat)
    requires ValidCalendar(cal) && HoldsAMinute(cal) && remaining > 0
    ensures var x := Due(cal, holidays, at, remaining);
      && BusinessDay(cal, holidays, DayOf(x)) && Opening(cal, DayOf(x)) + 60 <= x <= Closing(cal, DayOf(x))
      && (Regular(cal, at) ==> Regular(cal, x))
    decreases remaining, DaysAway(cal, holidays, at)
  {
    var c := Cursor(at, remaining);
    LoopProgress(cal, holidays, c);
    DueUnfolds(cal, holidays, at, remaining);
    var n := LoopStep(cal, holidays, c);
    if n.remaining > 0 {
      OpeningDay(cal, DayOf(at) + 1);
      assert AfterOpening(cal, n.at, 0);
      DueInHours(cal, holidays, n.at, n.remaining);
    } else {
      LastStepInHours(cal, holidays, c);
      if Regular(cal, at) { LastStepRegular(cal, holidays, c); }
    }
  }

  lemma LastStepRegular(cal: Calendar, holidays: set<int>, c: Cursor)
    requires ValidCalendar(cal) && c.remaining > 0 && LoopStep(cal, holidays, c).remaining == 0 && Regular(cal, c.at)
    ensures Regular(cal, LoopStep(cal, holidays, c).at)
  {
    LastStepInHours(cal, holidays, c);
    var x, day := LoopStep(cal, holidays, c).at, DayOf(c.at);
    if c.at <= Opening(cal, day) {
      assert AfterOpening(cal, x, c.remaining);
    } else if OnTheMinute(c.at) {
      PlusMinutes(c.at, c.remaining);
    } else {
      var j :| j >= 0 && AfterOpening(cal, c.at, j);
      assert AfterOpening(cal, x, j + c.remaining);
    }
  }

  /** Truncating a deadline takes nothing back: it is on a whole minute, or nothing more fits that day anyway. */
  predicate TruncatesSafely(cal: Calendar, x: int) {
    OnTheMinute(x) || Truncated(x) + 60 > Closing(cal, DayOf(x))
  }

  lemma TruncatedSameDay(x: int)
    ensures Truncated(x) <= x < Truncated(x) + 60 && DayOf(Truncated(x)) == DayOf(x) && OnTheMinute(Truncated(x))
  {
    var m, day := x / 60, DayOf(x);
    assert 60 * (1440 * day) <= x < 60 * (1440 * (day + 1));
    assert 1440 * day <= m < 1440 * (day + 1);
    DayIs(60 * m, day);
    IsMinute(60 * m, m);
  }

  lemma LateStep(cal: Calendar, holidays: set<int>, t: int, b: nat)
    requires ValidCalendar(cal) && b > 0 && t + 60 > Closing(cal, DayOf(t))
    ensures LoopStep(cal, holidays, Cursor(t, b)) == Cursor(Opening(cal, DayOf(t) + 1), b)
  {
  }

  lemma SafeTruncation(cal: Calendar, holidays: set<int>, x: int, b: nat)
    requires ValidCalendar(cal) && HoldsAMinute(cal) && TruncatesSafely(cal, x) && b > 0
    ensures Due(cal, holidays, Truncated(x), b) == Due(cal, holidays, x, b)
  {
    TruncatedSameDay(x);
    var t := Truncated(x);
    if !OnTheMinute(x) {
      LateStep(cal, holidays, x, b);
      LateStep(cal, holidays, t, b);
      DueUnfolds(cal, holidays, x, b);
      DueUnfolds(cal, holidays, t, b);
    }
  }

  /** Otherwise one more minute already makes a difference. */
  lemma UnsafeTruncation(cal: Calendar, holidays: set<int>, x: int)
    requires ValidCalendar(cal) && HoldsAMinute(cal) && !TruncatesSafely(cal, x)
    requires BusinessDay(cal, holidays, DayOf(x)) && Opening(cal, DayOf(x)) + 60 <= x
    ensures Due(cal, holidays, Truncated(x), 1) != Due(cal, holidays, x, 1)
  {
    TruncatedSameDay(x);
    var t := Truncated(x);
    assert LoopStep(cal, holidays, Cursor(t, 1)) == Cursor(t + 60, 0);
    DueUnfolds(cal, holidays, t, 1);
    assert Due(cal, holidays, t + 60, 0) == t + 60;
    DueFits(cal, holidays, x, 1);
    RoomSplits(cal, holidays, x, t + 60);
    assert t + 60 < Opening(cal, DayOf(x) + 1);
    assert DayRoom(cal, holidays, DayOf(x), x, t + 60) == 0;
  }

  predicate AddsUp(cal: Calendar, holidays: set<int>, start: int, a: nat, b: nat)
    requires ValidCalendar(cal) && HoldsAMinute(cal)
  {
    var first := Due(cal, holidays, Truncated(start), a);
    Due(cal, holidays, Truncated(first), b) == Due(cal, holidays, Truncated(start), a + b)
  }

  /** For one start and first addition: adding any `b` afterwards adds up if and only if truncating the first
      result takes nothing back. */
  lemma AddsUpAfter(cal: Calendar, holidays: set<int>, start: int, a: nat)
    requires ValidCalendar(cal) && HoldsAMinute(cal) && a >= 1
    ensures TruncatesSafely(cal, Due(cal, holidays, Truncated(start), a)) ==>
      forall b: nat :: b >= 1 ==> AddsUp(cal, holidays, start, a, b)
    ensures !TruncatesSafely(cal, Due(cal, holidays, Truncated(start), a)) ==> !AddsUp(cal, holidays, start, a, 1)
  {
    var from := Truncated(start);
    var x := Due(cal, holidays, from, a);
    if TruncatesSafely(cal, x) {
      forall b: nat | b >= 1 ensures AddsUp(cal, holidays, start, a, b) {
        SafeTruncation(cal, holidays, x, b);
        DueComposes(cal, holidays, from, a, b);
      }
    } else {
      DueInHours(cal, holidays, from, a);
      UnsafeTruncation(cal, holidays, x);
      DueComposes(cal, holidays, from, a, 1);
    }
  }

  /** The calendar opens on a whole minute, or closes before a second minute could be worked from the truncated
      end of the first. */
  predicate MinutesAddUp(cal: Calendar) {
    cal.opens % 60 == 0 || cal.closes - cal.opens < 120 - cal.opens % 60
  }

  lemma RegularIsSafe(cal: Calendar, x: int)
    requires ValidCalendar(cal) && MinutesAddUp(cal) && Regular(cal, x) && Opening(cal, DayOf(x)) + 60 <= x
    ensures TruncatesSafely(cal, x)
  {
    if !OnTheMinute(x) {
      var j :| j >= 0 && AfterOpening(cal, x, j);
      AfterOpeningTruncated(cal, x, j);
    }
  }

  /** Truncating whole minutes after an opening takes away the seconds of the opening. */
  lemma AfterOpeningTruncated(cal: Calendar, x: int, j: int)
    requires AfterOpening(cal, x, j)
    ensures Truncated(x) == x - cal.opens % 60
    ensures cal.opens % 60 == 0 ==> OnTheMinute(x)
  {
    var k := 1440 * DayOf(x) + cal.opens / 60 + j;
    assert x == 60 * k + cal.opens % 60;
    assert x / 60 == k;
  }

  /** From midnight of a business day on, when the hours are long enough and do not open on the minute. */
  lemma OffTheMinuteLosesSeconds(cal: Calendar, holidays: set<int>, day: int)
    requires ValidCalendar(cal) && HoldsAMinute(cal) && !MinutesAddUp(cal) && BusinessDay(cal, holidays, day)
    ensures !AddsUp(cal, holidays, day * DAY, 1, 1)
  {
    var start, x := day * DAY, Opening(cal, day) + 60;
    DayIs(start, day);
    IsMinute(start, 1440 * day);
    assert LoopStep(cal, holidays, Cursor(start, 1)) == Cursor(x, 0);
    DueUnfolds(cal, holidays, start, 1);
    assert Due(cal, holidays, x, 0) == x;
    DayIs(x, day);
    AfterOpeningTruncated(cal, x, 1);
    AddsUpAfter(cal, holidays, start, 1);
  }

  /** Deadlines add up for every start and all durations if and only if the calendar opens on a whole minute or
      its hours end before a second minute fits after the truncated first. */
  lemma DeadlinesComposeExactly(cal: Calendar, holidays: set<int>)
    requires ValidCalendar(cal) && HoldsAMinute(cal)
    ensures MinutesAddUp(cal) <==>
      forall start: int, a: nat, b: nat :: a >= 1 && b >= 1 ==> AddsUp(cal, holidays, start, a, b)
  {
    if MinutesAddUp(cal) {
      forall start: int, a: nat, b: nat | a >= 1 && b >= 1 ensures AddsUp(cal, holidays, start, a, b) {
        TruncatedSameDay(start);
        DueInHours(cal, holidays, Truncated(start), a);
        RegularIsSafe(cal, Due(cal, holidays, Truncated(start), a));
        AddsUpAfter(cal, holidays, start, a);
      }
    } else {
      var day := BusinessDayAhead(cal, holidays, 0);
      OffTheMinuteLosesSeconds(cal, holidays, day);
    }
  }

  /** So for a calendar that opens on a whole minute, adding `a` and then `b` is always adding `a + b`. */
  lemma DeadlinesCompose(cal: Calendar, holidays: set<int>, start: int, a: nat, b: nat)
    requires ValidCalendar(cal) && HoldsAMinute(cal) && OpensOnTheMinute(cal)
    ensures AddsUp(cal, holidays, start, a, b)
  {
    TruncatedSameDay(start);
    DueOnTheMinute(cal, holidays, Truncated(start), a);
    DueComposes(cal, holidays, Truncated(start), a, b);
  }

  // ---------------------------------------------------------------- two calendars

  /** Half a minute of opening hours: valid, and the loop never ends. */
  lemma HalfAMinuteNeverEnds(start: int, minutes: nat)
    requires minutes >= 1
    ensures ValidCalendar(Calendar({0}, 0, 30))
    ensures !Ends(Calendar({0}, 0, 30), {}, Cursor(Truncated(start), minutes))
  {
    LoopEndsExactly(Calendar({0}, 0, 30), {}, start, minutes);
  }

  /** Mondays from 09:00:30 to 17:00: a minute and another one are not two. */
  lemma HalfPastDoesNotAddUp()
    ensures var cal := Calendar({0}, 32430, 61200);
      ValidCalendar(cal) && HoldsAMinute(cal) && !AddsUp(cal, {}, 0, 1, 1)
  {
    OffTheMinuteLosesSeconds(Calendar({0}, 32430, 61200), {}, 0);
  }
}
