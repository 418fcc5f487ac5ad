/**
  The static `pod_hours` table of ctparse/types.py: eighteen named parts of
  the day, each with a lower and an upper hour. Ranges overlap on purpose
  (natural-language fuzziness). `Time.start` takes the lower hour, and
  `Time.end` takes the upper hour as the last hour of the part, so "morning"
  resolves to 05:00 .. 08:59.
 */
module PartsOfDay {

  import opened Wrappers

  datatype PartOfDay =
    | EarlyMorning | Morning | LateMorning
    | EarlyBeforeNoon | BeforeNoon | LateBeforeNoon
    | EarlyNoon | Noon | LateNoon
    | EarlyAfternoon | Afternoon | LateAfternoon
    | EarlyEvening | Evening | LateEvening
    | EarlyNight | Night | LateNight

  /** `pod_hours[p]`: every range is a non-empty stretch of one day's hours. */
  function PodHours(p: PartOfDay): (r: (int, int))
    ensures 0 <= r.0 < r.1 <= 23
  {
    match p
    case EarlyMorning => (0, 6)
    case Morning => (5, 8)
    case LateMorning => (8, 10)
    case EarlyBeforeNoon => (8, 11)
    case BeforeNoon => (9, 12)
    case LateBeforeNoon => (10, 13)
    case EarlyNoon => (11, 13)
    case Noon => (12, 14)
    case LateNoon => (13, 15)
    case EarlyAfternoon => (13, 15)
    case Afternoon => (14, 16)
    case LateAfternoon => (15, 17)
    case EarlyEvening => (16, 18)
    case Evening => (17, 19)
    case LateEvening => (18, 20)
    case EarlyNight => (18, 20)
    case Night => (19, 22)
    case LateNight => (20, 23)
  }

  /** The key under which the table stores each part of the day. */
  function PodName(p: PartOfDay): string
  {
    match p
    case EarlyMorning => "earlymorning"
    case Morning => "morning"
    case LateMorning => "latemorning"
    case EarlyBeforeNoon => "earlybeforenoon"
    case BeforeNoon => "beforenoon"
    case LateBeforeNoon => "latebeforenoon"
    case EarlyNoon => "earlynoon"
    case Noon => "noon"
    case LateNoon => "latenoon"
    case EarlyAfternoon => "earlyafternoon"
    case Afternoon => "afternoon"
    case LateAfternoon => "lateafternoon"
    case EarlyEvening => "earlyevening"
    case Evening => "evening"
    case LateEvening => "lateevening"
    case EarlyNight => "earlynight"
    case Night => "night"
    case LateNight => "latenight"
  }

  /** The tag a table key names, or None for a string that is not a key. */
  function ParsePod(name: string): (r: Option<PartOfDay>)
    ensures r.Some? ==> PodName(r.value) == name
  {
    if name == "earlymorning" then Some(EarlyMorning)
    else if name == "morning" then Some(Morning)
    else if name == "latemorning" then Some(LateMorning)
    else if name == "earlybeforenoon" then Some(EarlyBeforeNoon)
    else if name == "beforenoon" then Some(BeforeNoon)
    else if name == "latebeforenoon" then Some(LateBeforeNoon)
    else if name == "earlynoon" then Some(EarlyNoon)
    else if name == "noon" then Some(Noon)
    else if name == "latenoon" then Some(LateNoon)
    else if name == "earlyafternoon" then Some(EarlyAfternoon)
    else if name == "afternoon" then Some(Afternoon)
    else if name == "lateafternoon" then Some(LateAfternoon)
    else if name == "earlyevening" then Some(EarlyEvening)
    else if name == "evening" then Some(Evening)
    else if name == "lateevening" then Some(LateEvening)
    else if name == "earlynight" then Some(EarlyNight)
    else if name == "night" then Some(Night)
    else if name == "latenight" then Some(LateNight)
    else None
  }

  /** Every tag's key parses back to that tag, so the keys are distinct. */
  lemma ParsePodName(p: PartOfDay)
    ensures ParsePod(PodName(p)) == Some(p)
  {
  }

  /**
    `pod_hours[name]` looked up by string: a name that is not a key is the
    KeyError case, here None; a key gives that part's range.
   */
  function PodHoursByName(name: string): (r: Option<(int, int)>)
    ensures r.Some? <==> exists p :: PodName(p) == name
    ensures forall p :: PodName(p) == name ==> r == Some(PodHours(p))
  {
    match ParsePod(name)
    case None => None
    case Some(p) => Some(PodHours(p))
  }

}
