/**
 * The day-bucketed scheduling ledger (`InterventionPlanner`): a map from the
 * instant that starts a day to the ordered list of intervention ids booked on
 * that day, with a capacity of ten ids per day.
 */
module Planner {
  import Calendar

  const MaxInterventionsPerDay := 10

  /** Day start -> intervention ids in booking order. */
  type Ledger = map<int, seq<int>>

  /** The ids booked on the day that starts at `day`; empty when the day has no entry. */
  function Bucket(ledger: Ledger, day: int): seq<int> {
    if day in ledger then ledger[day] else []
  }

  /** The entry of `day`, if any, is keyed by a day start and holds one to ten ids. */
  ghost predicate DayWellFormed(ledger: Ledger, day: int) {
    day in ledger ==> day % Calendar.SecondsPerDay == 0 && 0 < |ledger[day]| <= MaxInterventionsPerDay
  }

  /** The ledger invariant: keys are day starts; no stored bucket is empty or
      over capacity. (Its quantifier fires only on days a proof names.) */
  ghost predicate WellFormed(ledger: Ledger) {
    forall day {:trigger DayWellFormed(ledger, day)} :: DayWellFormed(ledger, day)
  }

  /** `isTimeSlotAvailable`: the day of `date` holds fewer than ten ids. */
  predicate SlotAvailable(ledger: Ledger, date: int): (b: bool)
    ensures Calendar.Day(date) !in ledger ==> b
    ensures !b ==> Calendar.Day(date) in ledger && |ledger[Calendar.Day(date)]| >= MaxInterventionsPerDay
    ensures b <==> Calendar.Day(date) !in ledger || |ledger[Calendar.Day(date)]| < MaxInterventionsPerDay
  {
    |Bucket(ledger, Calendar.Day(date))| < MaxInterventionsPerDay
  }

  /** `s` with its first occurrence of `x` erased (`std::find` then `erase`);
      the other ids keep their order. */
  function EraseFirst(s: seq<int>, x: int): (r: seq<int>)
    ensures x in s ==> |r| == |s| - 1 && multiset(r) == multiset(s) - multiset{x}
    ensures x !in s ==> r == s
  {
    if |s| == 0 then []
    else
      assert s == [s[0]] + s[1..];
      if s[0] == x then s[1..] else [s[0]] + EraseFirst(s[1..], x)
  }

  /** Erasing skips a prefix that does not hold `x`. */
  lemma {:induction false} EraseFirstSkips(s: seq<int>, x: int, i: nat)
    requires i <= |s| && x !in s[..i]
    ensures EraseFirst(s, x) == s[..i] + EraseFirst(s[i..], x)
  {
    if i > 0 {
      var rest := s[1..];
      assert s[0] == s[..i][0] && s[0] != x;
      assert rest[..i - 1] == s[..i][1..];
      assert rest[i - 1..] == s[i..];
      assert s[..i] == [s[0]] + rest[..i - 1];
      calc {
        EraseFirst(s, x);
        [s[0]] + EraseFirst(rest, x);
        { EraseFirstSkips(rest, x, i - 1); }
        [s[0]] + (rest[..i - 1] + EraseFirst(s[i..], x));
        ([s[0]] + rest[..i - 1]) + EraseFirst(s[i..], x);
        s[..i] + EraseFirst(s[i..], x);
      }
    }
  }

  /** Erasing the first occurrence, found at `i`, splices the list around `i`. */
  lemma EraseAt(s: seq<int>, x: int, i: nat)
    requires i < |s| && s[i] == x && x !in s[..i]
    ensures EraseFirst(s, x) == s[..i] + s[i + 1..]
  {
    EraseFirstSkips(s, x, i);
    assert s[i..] == [x] + s[i + 1..];
  }

  /** The ledger after `scheduleIntervention(id, date, _)`. */
  function Schedule(ledger: Ledger, id: int, date: int): (r: Ledger)
    ensures !SlotAvailable(ledger, date) ==> r == ledger
    ensures SlotAvailable(ledger, date) ==>
      Bucket(r, Calendar.Day(date)) == Bucket(ledger, Calendar.Day(date)) + [id]
    ensures forall day :: day != Calendar.Day(date) ==> Bucket(r, day) == Bucket(ledger, day)
    ensures r.Keys <= ledger.Keys + {Calendar.Day(date)}
  {
    if SlotAvailable(ledger, date) then
      var day := Calendar.Day(date);
      ledger[day := Bucket(ledger, day) + [id]]
    else ledger
  }

  /** Whether `removeIntervention(id, date)` finds the id under the day of `date`. */
  predicate Removable(ledger: Ledger, id: int, date: int) {
    id in Bucket(ledger, Calendar.Day(date))
  }

  /** The ledger after `removeIntervention(id, date)`. */
  function Remove(ledger: Ledger, id: int, date: int): (r: Ledger)
    ensures !Removable(ledger, id, date) ==> r == ledger
    ensures Removable(ledger, id, date) ==>
      Bucket(r, Calendar.Day(date)) == EraseFirst(Bucket(ledger, Calendar.Day(date)), id)
    ensures forall day :: day != Calendar.Day(date) ==> Bucket(r, day) == Bucket(ledger, day)
    ensures r.Keys <= ledger.Keys
  {
    var day := Calendar.Day(date);
    if Removable(ledger, id, date) then
      var rest := EraseFirst(ledger[day], id);
      if |rest| == 0 then ledger - {day} else ledger[day := rest]
    else ledger
  }

  /** Scheduling keeps the ledger well formed: the capacity check admits an
      eleventh id nowhere, and the new key is a day start. */
  lemma {:induction false} SchedulePreservesWellFormed(ledger: Ledger, id: int, date: int)
    requires WellFormed(ledger)
    ensures WellFormed(Schedule(ledger, id, date))
  {
    var r := Schedule(ledger, id, date);
    Calendar.DayBounds(date);
    forall day
      ensures DayWellFormed(r, day)
    {
      assert DayWellFormed(ledger, day);
      if day != Calendar.Day(date) && day in r {
        assert Bucket(r, day) == Bucket(ledger, day);
      }
    }
  }

  /** Removing keeps the ledger well formed: a bucket that empties is dropped. */
  lemma {:induction false} RemovePreservesWellFormed(ledger: Ledger, id: int, date: int)
    requires WellFormed(ledger)
    ensures WellFormed(Remove(ledger, id, date))
  {
    var r := Remove(ledger, id, date);
    forall day
      ensures DayWellFormed(r, day)
    {
      assert DayWellFormed(ledger, day);
      if day in r {
        assert Bucket(r, day) == r[day] && Bucket(ledger, day) == ledger[day];
      }
    }
  }

  /** Whether `rescheduleIntervention` reports success, step by step as the source checks. */
  predicate RescheduleSucceeds(ledger: Ledger, id: int, oldDate: int, newDate: int): (b: bool)
    ensures b ==> Calendar.Day(oldDate) in ledger && id in ledger[Calendar.Day(oldDate)]
    ensures b ==> |Bucket(ledger, Calendar.Day(newDate))| < MaxInterventionsPerDay
  {
    && SlotAvailable(ledger, newDate)
    && Removable(ledger, id, oldDate)
    && SlotAvailable(Remove(ledger, id, oldDate), newDate)
  }

  /** The ledger after `rescheduleIntervention(id, oldDate, newDate, _)`. */
  function Reschedule(ledger: Ledger, id: int, oldDate: int, newDate: int): (r: Ledger)
    ensures !SlotAvailable(ledger, newDate) || !Removable(ledger, id, oldDate) ==> r == ledger
    ensures forall day :: day != Calendar.Day(oldDate) && day != Calendar.Day(newDate) ==>
      Bucket(r, day) == Bucket(ledger, day)
    ensures r.Keys <= ledger.Keys + {Calendar.Day(newDate)}
  {
    if !SlotAvailable(ledger, newDate) || !Removable(ledger, id, oldDate) then ledger
    else Schedule(Remove(ledger, id, oldDate), id, newDate)
  }

  /** Removing an id never makes a day fuller, so the last step of a
      reschedule cannot fail once the capacity check has passed: a reschedule
      either succeeds as a whole or leaves the ledger as it was. */
  lemma {:induction false} RescheduleIsAtomic(ledger: Ledger, id: int, oldDate: int, newDate: int)
    ensures RescheduleSucceeds(ledger, id, oldDate, newDate) <==>
      SlotAvailable(ledger, newDate) && Removable(ledger, id, oldDate)
    ensures !RescheduleSucceeds(ledger, id, oldDate, newDate) ==>
      Reschedule(ledger, id, oldDate, newDate) == ledger
    ensures RescheduleSucceeds(ledger, id, oldDate, newDate) ==>
      Bucket(Reschedule(ledger, id, oldDate, newDate), Calendar.Day(newDate))
        == Bucket(Remove(ledger, id, oldDate), Calendar.Day(newDate)) + [id]
  {
    var oldDay, newDay := Calendar.Day(oldDate), Calendar.Day(newDate);
    if SlotAvailable(ledger, newDate) && Removable(ledger, id, oldDate) {
      var removed := Remove(ledger, id, oldDate);
      if oldDay == newDay {
        assert |Bucket(removed, newDay)| == |Bucket(ledger, newDay)| - 1;
      } else {
        assert Bucket(removed, newDay) == Bucket(ledger, newDay);
      }
    }
  }

  /** A full day refuses a booking: the 11th intervention of a day is rejected. */
  lemma FullDayRejects(ledger: Ledger, id: int, date: int)
    requires |Bucket(ledger, Calendar.Day(date))| == MaxInterventionsPerDay
    ensures !SlotAvailable(ledger, date)
    ensures Schedule(ledger, id, date) == ledger
    ensures |Bucket(Schedule(ledger, id, date), Calendar.Day(date))| == MaxInterventionsPerDay
  {
  }

  /** Whether the day starting at `day` falls in `month` of `year`. */
  predicate InMonth(day: int, month: int, year: int) {
    Calendar.Split(day).month == month && Calendar.Split(day).year == year
  }

  class InterventionPlanner {
    var dailyInterventions: Ledger

    ghost predicate Valid()
      reads this
    {
      WellFormed(dailyInterventions)
    }

    constructor ()
      ensures Valid() && dailyInterventions == map[]
    {
      dailyInterventions := map[];
    }

    /** True iff the day of `date` has no bucket or fewer than ten ids; `duration` is not consulted. */
    method IsTimeSlotAvailable(date: int, duration: int) returns (available: bool)
      ensures available <==>
        Calendar.Day(date) !in dailyInterventions
        || |dailyInterventions[Calendar.Day(date)]| < MaxInterventionsPerDay
    {
      var dayStart := Calendar.Day(date);
      if dayStart !in dailyInterventions {
        return true;
      }
      available := |dailyInterventions[dayStart]| < MaxInterventionsPerDay;
    }

    method ScheduleIntervention(interventionId: int, date: int, duration: int) returns (ok: bool)
      requires Valid()
      modifies this
      ensures Valid()
      ensures ok == SlotAvailable(old(dailyInterventions), date)
      ensures dailyInterventions == Schedule(old(dailyInterventions), interventionId, date)
    {
      ok := IsTimeSlotAvailable(date, duration);
      if !ok {
        return;
      }
      SchedulePreservesWellFormed(dailyInterventions, interventionId, date);
      var dayStart := Calendar.Day(date);
      var bucket := if dayStart in dailyInterventions then dailyInterventions[dayStart] else [];
      dailyInterventions := dailyInterventions[dayStart := bucket + [interventionId]];
    }

    method RemoveIntervention(interventionId: int, date: int) returns (ok: bool)
      requires Valid()
      modifies this
      ensures Valid()
      ensures ok == Removable(old(dailyInterventions), interventionId, date)
      ensures dailyInterventions == Remove(old(dailyInterventions), interventionId, date)
    {
      var dayStart := Calendar.Day(date);
      if dayStart !in dailyInterventions {
        return false;
      }
      ghost var ledger := dailyInterventions;
      RemovePreservesWellFormed(ledger, interventionId, date);
      var interventions := dailyInterventions[dayStart];
      // std::find: the first position holding the id
      var i := 0;
      while i < |interventions| && interventions[i] != interventionId
        invariant 0 <= i <= |interventions|
        invariant interventionId !in interventions[..i]
      {
        assert interventions[..i + 1] == interventions[..i] + [interventions[i]];
        i := i + 1;
      }
      if i == |interventions| {
        assert interventions[..i] == interventions;
        return false;
      }
      EraseAt(interventions, interventionId, i);
      interventions := interventions[..i] + interventions[i + 1..];
      assert interventions == EraseFirst(ledger[dayStart], interventionId);
      if |interventions| == 0 {
        dailyInterventions := dailyInterventions - {dayStart};
      } else {
        dailyInterventions := dailyInterventions[dayStart := interventions];
      }
      ok := true;
    }

    method RescheduleIntervention(interventionId: int, oldDate: int, newDate: int, duration: int)
      returns (ok: bool)
      requires Valid()
      modifies this
      ensures Valid()
      ensures ok == RescheduleSucceeds(old(dailyInterventions), interventionId, oldDate, newDate)
      ensures dailyInterventions == Reschedule(old(dailyInterventions), interventionId, oldDate, newDate)
    {
      ok := IsTimeSlotAvailable(newDate, duration);
      if !ok {
        return;
      }
      ok := RemoveIntervention(interventionId, oldDate);
      if !ok {
        return;
      }
      ok := ScheduleIntervention(interventionId, newDate, duration);
    }

    /** The day's bucket in stored order, or empty; the ledger is not changed. */
    method GetInterventionsForDay(date: int) returns (ids: seq<int>)
      ensures ids == Bucket(dailyInterventions, Calendar.Day(date))
      ensures Calendar.Day(date) in dailyInterventions || ids == []
    {
      var dayStart := Calendar.Day(date);
      if dayStart !in dailyInterventions {
        return [];
      }
      ids := dailyInterventions[dayStart];
    }

    /** Days 1..N of the month (N from `getDaysInMonth`) pre-set to 0; each
        day of that month that has a bucket is overwritten with the bucket's size. */
    method CountInterventionsPerDay(month: int, year: int) returns (counts: map<int, int>)
      requires Valid()
      ensures forall mday :: mday in counts <==> 1 <= mday <= Calendar.DaysInMonth(month, year)
      ensures forall day :: day in dailyInterventions && InMonth(day, month, year) ==>
        counts[Calendar.Split(day).day] == |dailyInterventions[day]|
      ensures forall mday :: mday in counts && counts[mday] != 0 ==>
        exists day :: day in dailyInterventions && Calendar.Split(day) == Calendar.Date(year, month, mday)
    {
      counts := map[];
      var daysInMonth := Calendar.DaysInMonth(month, year);
      for mday := 1 to daysInMonth + 1
        invariant forall d :: d in counts <==> 1 <= d < mday
        invariant forall d :: d in counts ==> counts[d] == 0
      {
        counts := counts[mday := 0];
      }
      var remaining := dailyInterventions.Keys;
      while remaining != {}
        invariant remaining <= dailyInterventions.Keys
        invariant forall d :: d in counts <==> 1 <= d <= daysInMonth
        invariant forall day :: day in dailyInterventions && day !in remaining && InMonth(day, month, year) ==>
          counts[Calendar.Split(day).day] == |dailyInterventions[day]|
        invariant forall d :: d in counts && counts[d] != 0 ==>
          exists day :: day in dailyInterventions && Calendar.Split(day) == Calendar.Date(year, month, d)
        decreases |remaining|
      {
        if forall day :: day !in remaining {
          assert false;
        }
        var dayTime :| dayTime in remaining;
        var timeinfo := Calendar.Split(dayTime);
        if timeinfo.month == month && timeinfo.year == year {
          forall day | day in dailyInterventions && day !in remaining && InMonth(day, month, year)
            ensures Calendar.Split(day).day != timeinfo.day
          {
            if Calendar.Split(day).day == timeinfo.day {
              assert DayWellFormed(dailyInterventions, day) && DayWellFormed(dailyInterventions, dayTime);
              Calendar.SplitIsInjectiveOnDays(day, dayTime);
            }
          }
          counts := counts[timeinfo.day := |dailyInterventions[dayTime]|];
        }
        remaining := remaining - {dayTime};
      }
    }

    /** An extension point: reports success and leaves the ledger untouched. */
    method OptimizeSchedule(date: int) returns (ok: bool)
      ensures ok
    {
      ok := true;
    }
  }
}
