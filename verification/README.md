# ctparse partial date/time values in Dafny

This project models `ctparse/types.py`, the value layer under ctparse's
date/time extraction grammar, and proves properties of it.

- **Artifact** (`artifacts.dfy`, module `Artifacts`): the span bookkeeping every
  artifact inherits. It is a class with the fields `mstart` and `mend`.
  `UpdateSpan` overwrites them in place from the first and last child and
  returns the same object. `Len` is `len(artifact)`. For children in text
  order, no child is longer than the parent's new span, and the children's
  lengths add up to at most that span. `Equal` and `Key` are `__eq__` and the
  tuple `__hash__` hashes, over the base class's declared fields.
- **RegexMatch** (same file): the terminal leaf, a record of the production
  id, the span of its regex group and the matched text. Equality covers the
  span and the id only.
- **Parts of day** (`parts_of_day.dfy`, module `PartsOfDay`): the 18 tags of
  `pod_hours` as an enumeration, with the table as a total function. A lookup
  by string name is kept as well; an unknown name gives None, which is
  Python's `KeyError`.
- **Time** (`times.dfy`, module `Times`): seven independently optional
  fields. The shape predicates (`IsDOY`, `IsDate`, …) test for an exact set of
  present fields. The existence predicates (`HasDate`, …) test for at least a
  set of fields. `Start` and `End` resolve a value to its lower and upper
  bound. `Dt` is the conversion to a calendar instant. The source's `x or d`
  defaults are kept as written: an explicit hour 0 or minute 0 counts as
  missing, so `End` turns hour 0 into 23 and minute 0 into 59.
- **intersect** (`time_intersect.dfy`, module `TimeIntersect`): the merge of
  two values. `Intersection` is the field-wise definition. `Intersect` is the
  source's loop over the declared fields, which fills a `params` map and
  returns early on the first disagreement. It is proved equal to
  `Intersection`.
- **Interval** (`intervals.dfy`, module `Intervals`): two optional endpoints.
  Its `Start` and `End` fall back to the boundary of the present endpoint's
  day. They are methods because the source builds a fresh `Time` and then
  assigns its hour and minute.

Two facts about the code shape the model:

- `end` uses the `pod_hours` upper hour as the hour of the result, with minute
  59 unless a nonzero minute is given. So "morning" (5, 8) resolves to
  05:00 .. 08:59, while morning with minute 30 ends at 08:30.
- `isTimeInterval` reads `t_to` only when `t_from` is a time of day. Its
  precondition therefore needs `t_to` only in that case.

Field names are the enumeration `Field`. Field values are `Value`: an integer,
or a part-of-day tag for `POD`. This lets `Intersect` walk the fields
generically, as the source walks `_attrs`.

## Model

| member | source | states |
|---|---|---|
| `Artifacts.Artifact.constructor` | ctparse/types.py:5-8 | a new artifact spans 0..0 |
| `Artifacts.Artifact.UpdateSpan` | ctparse/types.py:10-13 | start becomes the first child's start and end the last child's end; nothing else changes; the same object is returned; for children in text order, every child lies inside the new span and is no longer than the parent's new `len` |
| `Artifacts.StartsAfterFirst` | ctparse/types.py:10-13 | for children in text order, no child starts before the first one |
| `Artifacts.EndsBeforeLast` | ctparse/types.py:10-13 | for children in text order, no child ends after the last one |
| `Artifacts.Artifact.Len` | ctparse/types.py:15-16 | the length is a natural number with `mstart + len == mend` |
| `Artifacts.ChildNoLongerThanParent` | ctparse/types.py:10-16 | for children in text order, no child's `len` exceeds the span from the first child's start to the last child's end |
| `Artifacts.ChildrenFitInSpan` | ctparse/types.py:10-16 | for children in text order, the children's lengths sum to at most the span from the first child's start to the last child's end |
| `Artifacts.Artifact.Equal` | ctparse/types.py:29-33 | two artifacts are equal exactly when their hash keys `(mstart, mend)` are equal |
| `Artifacts.RegexMatch.Equal` | ctparse/types.py:29-33 | two matches are equal exactly when their hash keys `(mstart, mend, id)` are equal |
| `Artifacts.MatchEqualityIgnoresText` | ctparse/types.py:52-61 | two matches are equal exactly when they differ at most in their matched text |
| `PartsOfDay.PodHours` | ctparse/types.py:67-86 | every part of day has hours `lower < upper` within 0..23 |
| `PartsOfDay.ParsePod` | ctparse/types.py:67-86 | a string that parses to a tag is that tag's table key |
| `PartsOfDay.ParsePodName` | ctparse/types.py:67-86 | every tag's key parses back to that tag, so the 18 keys are distinct |
| `PartsOfDay.PodHoursByName` | ctparse/types.py:67-86 | lookup by name succeeds exactly for the 18 keys and then gives that tag's range; any other name is the `KeyError` case |
| `Times.Time.HasOnly` | ctparse/types.py:35-42 | holds exactly when the set of present fields equals the named set; implies `HasAtLeast` of the same set |
| `Times.Time.HasAtLeast` | ctparse/types.py:44-49 | holds exactly when the named set is a subset of the present fields |
| `Times.Time.IsDOY` | ctparse/types.py:105-109 | a day of year carries neither a full date nor an hour |
| `Times.Time.IsDOM` | ctparse/types.py:111-115 | a day of month carries neither a full date nor an hour |
| `Times.Time.IsDOW` | ctparse/types.py:117-124 | a day of week has a weekday and neither a full date nor an hour |
| `Times.Time.IsMonth` | ctparse/types.py:126-128 | a month carries neither a full date nor an hour |
| `Times.Time.IsPOD` | ctparse/types.py:130-135 | a part of day has a part-of-day tag and neither a full date nor an hour |
| `Times.Time.IsTOD` | ctparse/types.py:137-140 | a time of day has an hour and neither a date nor a part of day |
| `Times.Time.IsDate` | ctparse/types.py:142-145 | a date has a full date and no hour |
| `Times.Time.IsDateTime` | ctparse/types.py:147-151 | a date-time has a full date and an hour, and neither a part of day nor a weekday |
| `Times.Time.IsYear` | ctparse/types.py:153-156 | a year carries neither a full date nor an hour |
| `Times.Time.HasDate` | ctparse/types.py:158-161 | holds exactly when year, month and day are all present |
| `Times.Time.HasDOW` | ctparse/types.py:163-166 | holds exactly when the weekday is present |
| `Times.Time.HasTime` | ctparse/types.py:168-171 | holds exactly when the hour is present |
| `Times.Time.HasPOD` | ctparse/types.py:173-176 | holds exactly when the part of day is present |
| `Times.Classify` | ctparse/types.py:105-156 | each of the nine shape predicates holds exactly when the total classification returns its own tag, so at most one holds for any value |
| `Times.Time.Start` | ctparse/types.py:207-214 | the date passes through; weekday and part of day are dropped; the hour is the part of day's lower hour, else the explicit hour (0 included), else 0; the minute is the explicit minute, else 0 |
| `Times.Time.End` | ctparse/types.py:216-223 | the date passes through; weekday and part of day are dropped; the hour is the part of day's upper hour, else the explicit hour unless it is missing or 0, in which case 23; the minute is the explicit minute unless it is missing or 0, in which case 59 |
| `Times.StartNotAfterEnd` | ctparse/types.py:207-223 | a value's start and end fall on the same date, and the start's (hour, minute) is not after the end's |
| `Times.ResolutionIsIdempotent` | ctparse/types.py:207-223 | resolving a resolved start with `Start`, or a resolved end with `Start` or `End`, changes nothing |
| `Times.MorningResolvesToItsRange` | ctparse/types.py:207-223 | `Time(POD="morning")` resolves to 05:00 as start and 08:59 as end |
| `Times.EndTreatsZeroAsUnset` | ctparse/types.py:216-223 | `Time(hour=0).end` has hour 23, `Time(minute=0).end` has minute 59, and `Time(hour=0, minute=0).end == Time().end` |
| `Times.Time.Dt` | ctparse/types.py:225-228 | the instant carries exactly the five fields of the value |
| `Times.ResolvedShapes` | ctparse/types.py:207-228 | resolving a full date gives date-times that `dt` accepts; resolving a value without date fields gives times of day |
| `TimeIntersect.Intersection` | ctparse/types.py:178-195 | None exactly when some non-excluded field is present on both sides with different values; otherwise excluded fields are None and every other field is `a`'s value if present, else `b`'s |
| `TimeIntersect.FromParams` | ctparse/types.py:195 | `Time(**params)`: each given field is set to its value, every other field is None |
| `TimeIntersect.Intersect` | ctparse/types.py:178-195 | the loop with early return computes exactly `Intersection` |
| `TimeIntersect.IntersectCommutes` | ctparse/types.py:178-195 | `intersect(a, b, ex) == intersect(b, a, ex)` |
| `TimeIntersect.IntersectIdentity` | ctparse/types.py:178-195 | `intersect(a, a) == a` and `intersect(a, Time()) == intersect(Time(), a) == a` |
| `TimeIntersect.IntersectIsLeastCommonRefinement` | ctparse/types.py:178-195 | with nothing excluded, the merge succeeds exactly when some value refines both inputs, and it is then the least such value |
| `TimeIntersect.IntersectAssociates` | ctparse/types.py:178-195 | with nothing excluded, merging three values gives the same result whichever pair is merged first |
| `Intervals.StartOfDay` | ctparse/types.py:251-255 | midnight on the given value's date, with no weekday or part of day |
| `Intervals.EndOfDay` | ctparse/types.py:261-265 | 23:59 on the given value's date, with no weekday or part of day |
| `Intervals.Interval.IsTimeInterval` | ctparse/types.py:238-240 | when it holds, both endpoints have an hour and no full date |
| `Intervals.Interval.Start` | ctparse/types.py:247-255 | `t_from.start` when `t_from` is present, else midnight of `t_to`'s date |
| `Intervals.Interval.End` | ctparse/types.py:257-265 | `t_to.end` when `t_to` is present, else 23:59 of `t_from`'s date |
| `Intervals.TimeIntervalBoundsAreTimesOfDay` | ctparse/types.py:238-265 | the start and end of a time-of-day interval are times of day |
| `Intervals.OpenIntervalsStayWithinOneDay` | ctparse/types.py:247-265 | with an on-clock hour and minute, an interval open at either side starts and ends on the same date and is not reversed |

## Left out

- The regex match object behind `RegexMatch` (`m.span`, `m.group` and the group key `R<id>`) belongs to Python's `re` module. The record takes the id, the span and the text directly.
- `Times.Time.Dt` does not model `datetime`'s calendar validation (a day 31 in February, an hour 25). A missing field, which makes `datetime` raise, is a precondition instead.
- `__str__`, `__repr__` and `nb_str` only format values for display.
- `__hash__` is modelled by the tuple it hashes (`Key`). Python's tuple hash itself is not modelled.
- The span that `Time` and `Interval` inherit is not carried by their datatypes. The source always starts it at 0..0, so the 0..0 span of an `intersect` result is not stated. Only `update_span` changes a span, and it is modelled once, on `Artifact`. The equality of `Time` ignores the span, so the datatype's own equality is the source's.
- `TimeIntersect.Intersect` takes two `Time` values only. The source's `type(a) != type(b)` branch, which returns None for artifacts of different classes, is not modelled. Nor is its behaviour on two artifacts of the same non-`Time` class: it returns None when they disagree on a declared field, and otherwise calls `Time(**params)`, which raises unless nothing was collected (both sides have every non-excluded field unset), in which case it returns `Time()`.
- `Artifacts.Artifact.Len` requires `mstart <= mend`. Python's `len` raises ValueError when `__len__` returns a negative number, so a reversed span has no length.
- `Artifacts.Artifact.UpdateSpan` requires at least one child. The source reads `args[0]`, which raises IndexError when it is called with none.
- The crashes of `Interval.start` and `Interval.end` with both endpoints missing, and of `isTimeInterval` on a missing endpoint it reads, are preconditions.
- Equality of two `Interval`s is not modelled. It compares the endpoints with Python `==`, which raises when one side is a `Time` and the other None.
- The reflective `_attrs` list and `getattr` become the enumeration `Field`. So an undeclared field name cannot be passed to `_hasOnly` or `_hasAtLeast`. Those two are modelled for `Time`, their only user.
- Python's dynamic typing is not modelled. Year, month, day, hour, minute and weekday hold integers, and the part of day holds a tag of the table. A part-of-day string missing from the table (`KeyError`) exists only in `PodHoursByName`.
