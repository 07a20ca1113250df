/** `Fight` of `warcraftlogs/api.py`: one killed encounter of a report. */
module Fights {
  import opened Json
  import opened PyStr
  import opened Payload
  import Helpers

  /** Start and end are millisecond offsets from the report's start. */
  datatype Fight = Fight(name: string, startTime: int, endTime: int) {

    /** `duration`: how long the fight took, in milliseconds (may be negative). */
    function Duration(): (d: int)
      ensures startTime + d == endTime
    {
      endTime - startTime
    }

    /** `duration_str`: the formatted `timedelta.seconds` of the duration. */
    function DurationStr(): (text: string)
      ensures |text| >= 2 && IsDigit(text[0])
    {
      Helpers.DurationStr(Duration())
    }
  }

  /** The class attributes a `Fight` starts from. */
  const DefaultFight: Fight := Fight("", 0, 0)

  /** `Fight(api_obj)`: every key present overrides its default. */
  function FightFrom(obj: FightPayload): (f: Fight)
    ensures obj.name.Absent? ==> f.name == ""
    ensures obj.startTime.Absent? ==> f.startTime == 0
    ensures obj.endTime.Absent? ==> f.endTime == 0
    ensures obj.name.Present? ==> f.name == obj.name.value
    ensures obj.startTime.Present? ==> f.startTime == obj.startTime.value
    ensures obj.endTime.Present? ==> f.endTime == obj.endTime.value
  {
    Fight(obj.name.GetOr(DefaultFight.name),
          obj.startTime.GetOr(DefaultFight.startTime),
          obj.endTime.GetOr(DefaultFight.endTime))
  }

  /** The payload that carries every field of `f`. */
  function FightPayloadOf(f: Fight): FightPayload {
    FightPayload(Present(f.name), Present(f.startTime), Present(f.endTime))
  }

  /** Decoding a payload that carries every key gives back the fight. */
  lemma FightRoundTrip(f: Fight)
    ensures FightFrom(FightPayloadOf(f)) == f
  {
  }

  /** A fight's duration string reads back as its duration's seconds within a
      day, to the second up to an hour and to the minute above. */
  lemma FightDurationStrReadBack(f: Fight)
    ensures var shown := Helpers.DaySeconds(f.Duration());
      Helpers.ParseDuration(f.DurationStr()) ==
        Some(if shown > 3600 then shown - shown % 60 else shown)
    ensures IsDigit(f.DurationStr()[0])
  {
    Helpers.SecToStrReadBack(Helpers.DaySeconds(f.Duration()));
  }

  /** A fight that ends 5 seconds before it starts shows as almost a day. */
  lemma NegativeDurationWraps()
    ensures Fight("", 5000, 0).DurationStr() == "23h59m"
  {
    assert Fight("", 5000, 0).Duration() == -5000;
    assert Helpers.DaySeconds(-5000) == 86395;
    assert 86395 / 3600 == 23 && (86395 % 3600) / 60 == 59;
    assert NatToString(23) == "23" && NatToString(59) == "59";
    assert Helpers.SecToStr(86395) == "23" + "h" + "59" + "m";
  }
}
