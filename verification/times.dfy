/**
  The partial date/time value `Time` of ctparse/types.py: seven independently
  optional fields, the shape predicates the grammar uses as guards, and the
  resolution of a partial value to its lower (`Start`) and upper (`End`)
  bound. Merging two values (`intersect`) lives in module TimeIntersect.
 */
module Times {

  import opened Wrappers
  import opened PartsOfDay

  /** The declared fields (`_attrs`) of a Time. */
  datatype Field = Year | Month | Day | Hour | Minute | DOW | POD

  /** The declared fields in declaration order. */
  const AllFields: seq<Field> := [Year, Month, Day, Hour, Minute, DOW, POD]

  /** The value of one field, whatever its type. */
  datatype Value = Num(n: int) | Tag(p: PartOfDay)

  /** POD holds a part-of-day tag, every other field an integer. */
  predicate Kinded(f: Field, v: Value)
  {
    v.Tag? <==> f == POD
  }

  function AsValue(x: Option<int>): Option<Value>
  {
    match x
    case None => None
    case Some(n) => Some(Num(n))
  }

  /** Python's `x or d` on an optional integer: None and 0 are both falsy. */
  function OrElse(x: Option<int>, d: int): int
  {
    if x.Some? && x.value != 0 then x.value else d
  }

  /** The result of `Time.dt`: all five clock and calendar fields, unvalidated. */
  datatype DateTime = DateTime(year: int, month: int, day: int, hour: int, minute: int)

  datatype Time = Time(
    year: Option<int>,
    month: Option<int>,
    day: Option<int>,
    hour: Option<int>,
    minute: Option<int>,
    dow: Option<int>,
    pod: Option<PartOfDay>)
  {
    /** `getattr(self, f)`. */
    function Get(f: Field): (v: Option<Value>)
      ensures v.Some? ==> Kinded(f, v.value)
    {
      match f
      case Year => AsValue(year)
      case Month => AsValue(month)
      case Day => AsValue(day)
      case Hour => AsValue(hour)
      case Minute => AsValue(minute)
      case DOW => AsValue(dow)
      case POD => if pod.Some? then Some(Tag(pod.value)) else None
    }

    predicate IsSet(f: Field)
    {
      Get(f).Some?
    }

    /** The fields that are not None. */
    function SetFields(): (s: set<Field>)
      ensures forall f :: f in s <==> IsSet(f)
    {
      set f | f in AllFields && IsSet(f)
    }

    /** `_hasOnly(*args)`: the named fields are set and every other declared
        field is None, that is, the set fields are exactly `args`. */
    predicate HasOnly(args: set<Field>)
      ensures HasOnly(args) <==> SetFields() == args
      ensures HasOnly(args) ==> HasAtLeast(args)
    {
      forall f | f in AllFields :: IsSet(f) == (f in args)
    }

    /** `_hasAtLeast(*args)`: the named fields are set; the others are not looked at. */
    predicate HasAtLeast(args: set<Field>)
      ensures HasAtLeast(args) <==> args <= SetFields()
    {
      forall f | f in args :: IsSet(f)
    }

    /** Day of year: a day and a month, nothing else. */
    predicate IsDOY()
      ensures IsDOY() ==> !HasDate() && !HasTime()
    {
      HasOnly({Month, Day})
    }

    /** Day of month: a day, nothing else. */
    predicate IsDOM()
      ensures IsDOM() ==> !HasDate() && !HasTime()
    {
      HasOnly({Day})
    }

    /** Day of week (0 = Monday), nothing else. */
    predicate IsDOW()
      ensures IsDOW() ==> HasDOW() && !HasDate() && !HasTime()
    {
      HasOnly({DOW})
    }

    predicate IsMonth()
      ensures IsMonth() ==> !HasDate() && !HasTime()
    {
      HasOnly({Month})
    }

    /** A part of day only; a part of day with anything else is not one. */
    predicate IsPOD()
      ensures IsPOD() ==> HasPOD() && !HasDate() && !HasTime()
    {
      HasOnly({POD})
    }

    /** Time of day: an hour, possibly with minutes, and no date. */
    predicate IsTOD()
      ensures IsTOD() ==> HasTime() && !HasDate() && !HasPOD()
    {
      HasOnly({Hour}) || HasOnly({Hour, Minute})
    }

    /** A full date and no time. */
    predicate IsDate()
      ensures IsDate() ==> HasDate() && !HasTime()
    {
      HasOnly({Year, Month, Day})
    }

    /** A full date with an hour, possibly with minutes. */
    predicate IsDateTime()
      ensures IsDateTime() ==> HasDate() && HasTime() && !HasPOD() && !HasDOW()
    {
      HasOnly({Year, Month, Day, Hour}) || HasOnly({Year, Month, Day, Hour, Minute})
    }

    predicate IsYear()
      ensures IsYear() ==> !HasDate() && !HasTime()
    {
      HasOnly({Year})
    }

    /** At least a full date. */
    predicate HasDate()
      ensures HasDate() <==> year.Some? && month.Some? && day.Some?
    {
      HasAtLeast({Year, Month, Day})
    }

    predicate HasDOW()
      ensures HasDOW() <==> dow.Some?
    {
      HasAtLeast({DOW})
    }

    /** At least a time to the hour. */
    predicate HasTime()
      ensures HasTime() <==> hour.Some?
    {
      HasAtLeast({Hour})
    }

    predicate HasPOD()
      ensures HasPOD() <==> pod.Some?
    {
      HasAtLeast({POD})
    }

    /**
      `start`: the lower bound. The hour is the part of day's lower hour when
      there is one, otherwise the explicit hour, otherwise 0; the minute is
      the explicit minute or 0. The date passes through; day of week and part
      of day are dropped. (The source writes `hour or 0`, which for an
      explicit 0 gives 0 all the same.)
     */
    function Start(): (r: Time)
      ensures r.year == year && r.month == month && r.day == day
      ensures r.dow.None? && r.pod.None?
      ensures pod.Some? ==> r.hour == Some(PodHours(pod.value).0)
      ensures pod.None? ==> r.hour == Some(if hour.Some? then hour.value else 0)
      ensures r.minute == Some(if minute.Some? then minute.value else 0)
    {
      var h := if HasPOD() then PodHours(pod.value).0 else OrElse(hour, 0);
      Time(year, month, day, Some(h), Some(OrElse(minute, 0)), None, None)
    }

    /**
      `end`: the upper bound. The hour is the part of day's upper hour when
      there is one, otherwise the explicit hour, otherwise 23; the minute is
      the explicit minute, otherwise 59. The source's `or` treats an explicit
      0 like a missing value, so hour 0 becomes 23 and minute 0 becomes 59.
     */
    function End(): (r: Time)
      ensures r.year == year && r.month == month && r.day == day
      ensures r.dow.None? && r.pod.None?
      ensures pod.Some? ==> r.hour == Some(PodHours(pod.value).1)
      ensures pod.None? && hour.Some? && hour.value != 0 ==> r.hour == hour
      ensures pod.None? && (hour.None? || hour.value == 0) ==> r.hour == Some(23)
      ensures minute.Some? && minute.value != 0 ==> r.minute == minute
      ensures minute.None? || minute.value == 0 ==> r.minute == Some(59)
    {
      var h := if HasPOD() then PodHours(pod.value).1 else OrElse(hour, 23);
      Time(year, month, day, Some(h), Some(OrElse(minute, 59)), None, None)
    }

    /** The five fields `datetime` needs are all present. */
    predicate IsComplete()
    {
      year.Some? && month.Some? && day.Some? && hour.Some? && minute.Some?
    }

    /** `dt`: the five fields as a calendar instant (calendar validity is not checked). */
    function Dt(): (r: DateTime)
      requires IsComplete()
      ensures this == Time(Some(r.year), Some(r.month), Some(r.day), Some(r.hour), Some(r.minute), dow, pod)
    {
      DateTime(year.value, month.value, day.value, hour.value, minute.value)
    }
  }

  /** `Time()`: every field None. */
  const Unset := Time(None, None, None, None, None, None, None)

  /** The shape a value has, one tag per shape predicate. */
  datatype Shape =
    | YearOnly | MonthOnly | DayOfMonth | DayOfYear | DayOfWeek
    | PartOfDayOnly | TimeOfDay | DateOnly | DateAndTime | Unclassified

  /**
    A total classification by the exact set of fields present. Each shape
    predicate holds exactly when its tag is the result, so at most one of
    them holds for any value; values with any other combination of fields
    (a part of day with a year, say) fit none of them.
   */
  function Classify(t: Time): (s: Shape)
    ensures t.IsYear() <==> s == YearOnly
    ensures t.IsMonth() <==> s == MonthOnly
    ensures t.IsDOM() <==> s == DayOfMonth
    ensures t.IsDOY() <==> s == DayOfYear
    ensures t.IsDOW() <==> s == DayOfWeek
    ensures t.IsPOD() <==> s == PartOfDayOnly
    ensures t.IsTOD() <==> s == TimeOfDay
    ensures t.IsDate() <==> s == DateOnly
    ensures t.IsDateTime() <==> s == DateAndTime
  {
    var fs := t.SetFields();
    if fs == {Year} then YearOnly
    else if fs == {Month} then MonthOnly
    else if fs == {Day} then DayOfMonth
    else if fs == {Month, Day} then DayOfYear
    else if fs == {DOW} then DayOfWeek
    else if fs == {POD} then PartOfDayOnly
    else if fs == {Hour} || fs == {Hour, Minute} then TimeOfDay
    else if fs == {Year, Month, Day} then DateOnly
    else if fs == {Year, Month, Day, Hour} || fs == {Year, Month, Day, Hour, Minute} then DateAndTime
    else Unclassified
  }

  /** Hour and minute, both present, compared lexicographically. */
  predicate NotAfter(a: Time, b: Time)
  {
    && a.hour.Some? && a.minute.Some? && b.hour.Some? && b.minute.Some?
    && (a.hour.value < b.hour.value || (a.hour.value == b.hour.value && a.minute.value <= b.minute.value))
  }

  predicate SameDate(a: Time, b: Time)
  {
    a.year == b.year && a.month == b.month && a.day == b.day
  }

  /** A value's lower bound never lies after its upper bound, on the same date. */
  lemma StartNotAfterEnd(t: Time)
    ensures SameDate(t.Start(), t.End()) && NotAfter(t.Start(), t.End())
  {
  }

  /** Resolving a resolved value again changes nothing. */
  lemma ResolutionIsIdempotent(t: Time)
    ensures t.Start().Start() == t.Start()
    ensures t.End().End() == t.End()
    ensures t.End().Start() == t.End()
  {
  }

  /** The `or` quirk kept from the source: an explicit midnight hour and
      an explicit zero minute resolve like missing ones in `End`. */
  lemma EndTreatsZeroAsUnset()
    ensures Unset.(hour := Some(0)).End().hour == Some(23)
    ensures Unset.(minute := Some(0)).End().minute == Some(59)
    ensures Unset.(hour := Some(0), minute := Some(0)).End() == Unset.End()
  {
  }

  /** A part of day resolves to its table range: morning is 05:00 .. 08:59. */
  lemma MorningResolvesToItsRange()
    ensures Unset.(pod := Some(Morning)).Start() == Unset.(hour := Some(5), minute := Some(0))
    ensures Unset.(pod := Some(Morning)).End() == Unset.(hour := Some(8), minute := Some(59))
  {
  }

  /**
    Resolution turns a full date into a date-time that `Dt` accepts, and a
    value without any date field into a time of day.
   */
  lemma ResolvedShapes(t: Time)
    ensures t.HasDate() ==> t.Start().IsDateTime() && t.End().IsDateTime()
    ensures t.HasDate() ==> t.Start().IsComplete() && t.End().IsComplete()
    ensures t.year.None? && t.month.None? && t.day.None? ==> t.Start().IsTOD() && t.End().IsTOD()
  {
    var s, e := t.Start(), t.End();
    if t.HasDate() {
      assert s.SetFields() == {Year, Month, Day, Hour, Minute};
      assert e.SetFields() == {Year, Month, Day, Hour, Minute};
      assert s.HasOnly({Year, Month, Day, Hour, Minute}) && e.HasOnly({Year, Month, Day, Hour, Minute});
    }
    if t.year.None? && t.month.None? && t.day.None? {
      assert s.SetFields() == {Hour, Minute};
      assert e.SetFields() == {Hour, Minute};
      assert s.HasOnly({Hour, Minute}) && e.HasOnly({Hour, Minute});
    }
  }

}
