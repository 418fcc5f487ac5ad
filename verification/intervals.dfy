/**
  `Interval` of ctparse/types.py: a range given by two optional `Time`
  endpoints. A missing endpoint is filled in with the boundary of the day
  of the endpoint that is present.
 */
module Intervals {

  import opened Wrappers
  import opened Times

  /** 00:00 on the date of `t`. */
  function StartOfDay(t: Time): (r: Time)
    ensures SameDate(r, t) && r.HasTime() && !r.HasDOW() && !r.HasPOD()
    ensures r.hour == Some(0) && r.minute == Some(0)
  {
    Time(t.year, t.month, t.day, Some(0), Some(0), None, None)
  }

  /** 23:59 on the date of `t`. */
  function EndOfDay(t: Time): (r: Time)
    ensures SameDate(r, t) && r.HasTime() && !r.HasDOW() && !r.HasPOD()
    ensures r.hour == Some(23) && r.minute == Some(59)
  {
    Time(t.year, t.month, t.day, Some(23), Some(59), None, None)
  }

  datatype Interval = Interval(tFrom: Option<Time>, tTo: Option<Time>)
  {
    /**
      `isTimeInterval`: both endpoints are times of day. The source reads
      `tFrom` unconditionally and `tTo` only when `tFrom` is a time of day,
      so those are the endpoints it needs.
     */
    predicate IsTimeInterval()
      requires tFrom.Some? && (tFrom.value.IsTOD() ==> tTo.Some?)
      ensures IsTimeInterval() ==> tTo.Some? && tTo.value.HasTime() && !tTo.value.HasDate()
      ensures IsTimeInterval() ==> tFrom.value.HasTime() && !tFrom.value.HasDate()
    {
      tFrom.value.IsTOD() && tTo.value.IsTOD()
    }

    /**
      `start`: the lower bound of `tFrom`; without `tFrom`, midnight at the
      start of `tTo`'s day (the source resolves `tTo.end` and then overwrites
      its hour and minute with 0).
     */
    method Start() returns (r: Time)
      requires tFrom.Some? || tTo.Some?
      ensures tFrom.Some? ==> r == tFrom.value.Start()
      ensures tFrom.None? ==> r == StartOfDay(tTo.value)
    {
      if tFrom.Some? {
        r := tFrom.value.Start();
      } else {
        var end := tTo.value.End();
        end := end.(hour := Some(0));
        end := end.(minute := Some(0));
        r := end;
      }
    }

    /**
      `end`: the upper bound of `tTo`; without `tTo`, 23:59 at the end of
      `tFrom`'s day (the source resolves `tFrom.start` and then overwrites
      its hour and minute with 23 and 59).
     */
    method End() returns (r: Time)
      requires tFrom.Some? || tTo.Some?
      ensures tTo.Some? ==> r == tTo.value.End()
      ensures tTo.None? ==> r == EndOfDay(tFrom.value)
    {
      if tTo.Some? {
        r := tTo.value.End();
      } else {
        var start := tFrom.value.Start();
        start := start.(hour := Some(23));
        start := start.(minute := Some(59));
        r := start;
      }
    }
  }

  /** Hour and minute, where present, lie on a 24-hour clock. */
  predicate ClockInRange(t: Time)
  {
    && (t.hour.Some? ==> 0 <= t.hour.value <= 23)
    && (t.minute.Some? ==> 0 <= t.minute.value <= 59)
  }

  /** An interval of two times of day resolves to two times of day. */
  lemma TimeIntervalBoundsAreTimesOfDay(iv: Interval)
    requires iv.tFrom.Some? && iv.tTo.Some? && iv.IsTimeInterval()
    ensures iv.tFrom.value.Start().IsTOD() && iv.tTo.value.End().IsTOD()
  {
    var s, e := iv.tFrom.value.Start(), iv.tTo.value.End();
    assert !iv.tFrom.value.HasDate() && !iv.tTo.value.HasDate();
    assert s.SetFields() == {Hour, Minute};
    assert e.SetFields() == {Hour, Minute};
    assert s.HasOnly({Hour, Minute}) && e.HasOnly({Hour, Minute});
  }

  /**
    An interval open at its start runs from midnight of its end's day to
    that end, and one open at its end runs from its start to 23:59 of the
    same day: both stay within one date and are not reversed, as long as
    the given hour and minute are on the clock.
   */
  lemma OpenIntervalsStayWithinOneDay(t: Time)
    requires ClockInRange(t)
    ensures SameDate(StartOfDay(t), t.End()) && NotAfter(StartOfDay(t), t.End())
    ensures SameDate(t.Start(), EndOfDay(t)) && NotAfter(t.Start(), EndOfDay(t))
  {
  }

}
