/** `Report` of `warcraftlogs/api.py`: a report object filled in field by field
    from a payload, and the functions that say what each step computes. */
module Reports {
  import opened Json
  import opened Payload
  import opened Characters
  import opened Fights
  import Helpers
  import PyStr

  /** The two `datetime.now()` readings taken when the class is defined; they
      are the `start_time` and `end_time` of every report the payload does not
      date. Times are milliseconds since the epoch. The readings are taken once
      and shared by every report, so callers pass the same value to every call. */
  datatype LoadTimes = LoadTimes(start: int, end: int)

  /** The fields of a `Report` at one moment. */
  datatype ReportState = ReportState(
    title: string,
    id: string,
    startTime: int,
    endTime: int,
    segmentCount: int,
    characters: seq<Character>,
    fights: seq<Fight>,
    raid: string,
    deaths: int,
    executionRank: int,
    speedRank: int)
  {
    /** `duration`: from the report's start to its end, in milliseconds. */
    function Duration(): (d: int)
      ensures startTime + d == endTime
    {
      endTime - startTime
    }

    /** `duration_str`: the formatted `timedelta.seconds` of the duration. */
    function DurationStr(): (text: string)
      ensures |text| >= 2 && PyStr.IsDigit(text[0])
    {
      Helpers.DurationStr(Duration())
    }
  }

  /** The class attributes a new `Report()` starts from. */
  function NewReport(load: LoadTimes): (r: ReportState)
    ensures r.startTime == load.start && r.endTime == load.end
    ensures r.Duration() == load.end - load.start
    ensures |r.characters| == 0 && |r.fights| == 0
    ensures EarliestStart(r.fights).None? && LatestEnd(r.fights).None?
  {
    ReportState("", "", load.start, load.end, 0, [], [], "", 0, 0, 0)
  }

  /** `get_earliest_start`: keeps the first strictly smaller start. */
  function EarliestStart(fights: seq<Fight>): (r: Option<int>)
    ensures r.None? <==> |fights| == 0
    decreases |fights|
  {
    if |fights| == 0 then None
    else
      var f := fights[|fights| - 1];
      match EarliestStart(fights[..|fights| - 1])
      case None => Some(f.startTime)
      case Some(e) => if f.startTime < e then Some(f.startTime) else Some(e)
  }

  /** `get_latest_end`: keeps the first strictly larger end. */
  function LatestEnd(fights: seq<Fight>): (r: Option<int>)
    ensures r.None? <==> |fights| == 0
    decreases |fights|
  {
    if |fights| == 0 then None
    else
      var f := fights[|fights| - 1];
      match LatestEnd(fights[..|fights| - 1])
      case None => Some(f.endTime)
      case Some(l) => if f.endTime > l then Some(f.endTime) else Some(l)
  }

  /** `[Character(c) for c in ...]`. */
  function CharactersFrom(list: seq<CharacterPayload>): (cs: seq<Character>)
    ensures |cs| == |list|
    ensures forall i :: 0 <= i < |list| ==> cs[i] == CharacterFrom(list[i])
  {
    seq(|list|, i requires 0 <= i < |list| => CharacterFrom(list[i]))
  }

  /** `[Fight(f) for f in ...]`. */
  function FightsFrom(list: seq<FightPayload>): (fs: seq<Fight>)
    ensures |fs| == |list|
    ensures forall i :: 0 <= i < |list| ==> fs[i] == FightFrom(list[i])
  {
    seq(|list|, i requires 0 <= i < |list| => FightFrom(list[i]))
  }

  /** The class-id workaround for one character: an id of 0 is overwritten
      once per actor, so the last actor's sub-type decides. */
  function BackfillOne(c: Character, actors: seq<Actor>, lookup: string -> int): (r: Character)
    ensures r.name == c.name
    ensures c.classId != 0 || |actors| == 0 ==> r == c
    ensures c.classId == 0 && |actors| > 0 ==> r.classId == lookup(actors[|actors| - 1].subType)
  {
    if c.classId == 0 && |actors| > 0 then c.(classId := lookup(actors[|actors| - 1].subType))
    else c
  }

  /** The class-id workaround applied to every character in order. */
  function Backfill(cs: seq<Character>, actors: seq<Actor>, lookup: string -> int): (r: seq<Character>)
    ensures |r| == |cs|
    ensures forall i :: 0 <= i < |cs| ==> r[i].name == cs[i].name
    ensures forall i :: 0 <= i < |cs| && (cs[i].classId != 0 || |actors| == 0) ==> r[i] == cs[i]
  {
    seq(|cs|, i requires 0 <= i < |cs| => BackfillOne(cs[i], actors, lookup))
  }

  /** The actors list, when `masterData` and `masterData.actors` are both present. */
  function ActorsOf(masterData: Field<MasterData>): Field<seq<Actor>> {
    match masterData
    case Absent => Absent
    case Present(m) => m.actors
  }

  /** The characters after the `rankedCharacters` step. */
  function DecodeCharacters(before: seq<Character>, obj: ReportPayload, lookup: string -> int): (cs: seq<Character>)
    ensures obj.rankedCharacters.Absent? ==> cs == before
    ensures obj.rankedCharacters.Present? ==> |cs| == |obj.rankedCharacters.value|
    ensures obj.rankedCharacters.Present? ==>
      forall i :: 0 <= i < |cs| ==> cs[i].name == CharacterFrom(obj.rankedCharacters.value[i]).name
    ensures obj.rankedCharacters.Present? && ActorsOf(obj.masterData).Absent? ==>
      cs == CharactersFrom(obj.rankedCharacters.value)
  {
    match obj.rankedCharacters
    case Absent => before
    case Present(list) =>
      match ActorsOf(obj.masterData)
      case Absent => CharactersFrom(list)
      case Present(actors) => Backfill(CharactersFrom(list), actors, lookup)
  }

  /** What the search over `rankings.data` finds: a missing key (the
      `KeyError` that ends the search), nothing, or the first entry whose
      encounter name equals the raid. */
  datatype RaidSearch = KeyMissing | NoMatch | Match(entry: RankingEntry)

  function FindRaid(data: seq<RankingEntry>, raid: string): (r: RaidSearch)
    ensures r.Match? ==> r.entry in data && r.entry.encounterName == Present(raid)
    decreases |data|
  {
    if |data| == 0 then NoMatch
    else if data[0].encounterName.Absent? then KeyMissing
    else if data[0].encounterName.value == raid then Match(data[0])
    else FindRaid(data[1..], raid)
  }

  /** The three assignments of a found entry; a missing key stops the rest. */
  function TakeRanks(s: ReportState, e: RankingEntry): (r: ReportState)
    ensures r == s.(speedRank := r.speedRank, executionRank := r.executionRank, deaths := r.deaths)
  {
    match e.speed
    case Absent => s
    case Present(speed) =>
      var s1 := s.(speedRank := speed);
      match e.execution
      case Absent => s1
      case Present(execution) =>
        var s2 := s1.(executionRank := execution);
        match e.deaths
        case Absent => s2
        case Present(deaths) => s2.(deaths := deaths)
  }

  /** `get_rankings_from_data`. */
  function ApplyRankings(s: ReportState, data: seq<RankingEntry>): (r: ReportState)
    ensures r == s.(speedRank := r.speedRank, executionRank := r.executionRank, deaths := r.deaths)
    ensures !FindRaid(data, s.raid).Match? ==> r == s
  {
    match FindRaid(data, s.raid)
    case Match(e) => TakeRanks(s, e)
    case _ => s
  }

  /** `start_time` after the `startTime` step: the base plus the earliest
      fight start, or the base alone when there is no fight. */
  function AnchoredStart(s: ReportState, start: Field<int>): int {
    match start
    case Absent => s.startTime
    case Present(base) =>
      match EarliestStart(s.fights)
      case Some(first) => base + first
      case None => base
  }

  /** `end_time` after the `startTime` step: the base plus the latest fight
      end, or the report's own `endTime` (when present) without fights. */
  function AnchoredEnd(s: ReportState, start: Field<int>, end: Field<int>): int {
    match start
    case Absent => s.endTime
    case Present(base) =>
      match (EarliestStart(s.fights), LatestEnd(s.fights))
      case (Some(_), Some(last)) => base + last
      case _ => end.GetOr(s.endTime)
  }

  /** The `startTime` step of `from_api_object`. */
  function AnchorTimes(s: ReportState, start: Field<int>, end: Field<int>): (r: ReportState)
    ensures r == s.(startTime := r.startTime, endTime := r.endTime)
    ensures start.Absent? ==> r == s
    ensures start.Present? && |s.fights| == 0 ==>
      r.startTime == start.value && r.endTime == end.GetOr(s.endTime)
    ensures start.Present? && |s.fights| > 0 ==>
      r.startTime == start.value + EarliestStart(s.fights).value &&
      r.endTime == start.value + LatestEnd(s.fights).value
  {
    s.(startTime := AnchoredStart(s, start), endTime := AnchoredEnd(s, start, end))
  }

  /** The `code`, `title` and `segments` steps. */
  function DecodeIdentity(s: ReportState, obj: ReportPayload): (r: ReportState)
    ensures r == s.(id := r.id, title := r.title, segmentCount := r.segmentCount)
    ensures (obj.code.Present? ==> r.id == obj.code.value) && (obj.code.Absent? ==> r.id == s.id)
    ensures (obj.title.Present? ==> r.title == obj.title.value) && (obj.title.Absent? ==> r.title == s.title)
    ensures (obj.segments.Present? ==> r.segmentCount == obj.segments.value) &&
            (obj.segments.Absent? ==> r.segmentCount == s.segmentCount)
  {
    s.(id := obj.code.GetOr(s.id),
       title := obj.title.GetOr(s.title),
       segmentCount := obj.segments.GetOr(s.segmentCount))
  }

  /** The `zone` step: a present, non-null zone names the raid. */
  function DecodeRaid(s: ReportState, zone: Field<Option<Zone>>): (r: ReportState)
    ensures r == s.(raid := r.raid)
    ensures zone.Present? && zone.value.Some? ==> r.raid == zone.value.value.name
    ensures zone.Absent? || zone.value.None? ==> r == s
  {
    if zone.Present? && zone.value.Some? then s.(raid := zone.value.value.name) else s
  }

  /** The last step: rankings are read whenever the `zone` key exists, even
      when it holds null. */
  function DecodeRankings(s: ReportState, obj: ReportPayload): (r: ReportState)
    ensures r == s.(speedRank := r.speedRank, executionRank := r.executionRank, deaths := r.deaths)
    ensures obj.zone.Absent? || obj.rankings.Absent? ==> r == s
  {
    if obj.zone.Present? && obj.rankings.Present? then ApplyRankings(s, obj.rankings.value.data)
    else s
  }

  /** `from_api_object`, as a function of the report's fields before the call. */
  function Decode(s: ReportState, obj: ReportPayload, lookup: string -> int): (r: ReportState)
    ensures |r.characters| == if obj.rankedCharacters.Present? then |obj.rankedCharacters.value| else |s.characters|
    ensures |r.fights| == if obj.fights.Present? then |obj.fights.value| else |s.fights|
  {
    var identified := DecodeIdentity(s, obj);
    var withCharacters := identified.(characters := DecodeCharacters(s.characters, obj, lookup));
    var withFights := withCharacters.(fights := if obj.fights.Present? then FightsFrom(obj.fights.value) else s.fights);
    var withRaid := DecodeRaid(withFights, obj.zone);
    DecodeRankings(AnchorTimes(withRaid, obj.startTime, obj.endTime), obj)
  }

  /** A report object, filled in step by step by `FromApiObject`. */
  class Report {
    var title: string
    var id: string
    var startTime: int
    var endTime: int
    var segmentCount: int
    var characters: seq<Character>
    var fights: seq<Fight>
    var raid: string
    var deaths: int
    var executionRank: int
    var speedRank: int

    /** The report's fields as a value. */
    function State(): ReportState
      reads this
    {
      ReportState(title, id, startTime, endTime, segmentCount, characters, fights,
                  raid, deaths, executionRank, speedRank)
    }

    /** `Report()`: every field at its class default. */
    constructor(load: LoadTimes)
      ensures State() == NewReport(load)
    {
      title, id := "", "";
      startTime, endTime := load.start, load.end;
      segmentCount := 0;
      characters, fights := [], [];
      raid := "";
      deaths, executionRank, speedRank := 0, 0, 0;
    }

    /** `get_earliest_start`. */
    method GetEarliestStart() returns (earliest: Option<int>)
      ensures earliest == EarliestStart(fights)
    {
      earliest := None;
      var i := 0;
      while i < |fights|
        invariant 0 <= i <= |fights|
        invariant earliest == EarliestStart(fights[..i])
      {
        assert fights[..i + 1][..i] == fights[..i];
        if earliest.None? || fights[i].startTime < earliest.value {
          earliest := Some(fights[i].startTime);
        }
        i := i + 1;
      }
      assert fights[..i] == fights;
    }

    /** `get_latest_end`. */
    method GetLatestEnd() returns (latest: Option<int>)
      ensures latest == LatestEnd(fights)
    {
      latest := None;
      var i := 0;
      while i < |fights|
        invariant 0 <= i <= |fights|
        invariant latest == LatestEnd(fights[..i])
      {
        assert fights[..i + 1][..i] == fights[..i];
        if latest.None? || fights[i].endTime > latest.value {
          latest := Some(fights[i].endTime);
        }
        i := i + 1;
      }
      assert fights[..i] == fights;
    }

    /** `get_rankings_from_data`: find the raid's entry, then copy its speed,
        execution and deaths; a missing key ends the method quietly. */
    method GetRankingsFromData(data: seq<RankingEntry>)
      modifies this
      ensures State() == ApplyRankings(old(State()), data)
    {
      var fullRaid: Option<RankingEntry> := None;
      var i := 0;
      while i < |data|
        invariant 0 <= i <= |data|
        invariant FindRaid(data, raid) == FindRaid(data[i..], raid)
      {
        if data[i].encounterName.Absent? {
          return;
        }
        if data[i].encounterName.value == raid {
          fullRaid := Some(data[i]);
          break;
        }
        assert data[i..][1..] == data[i + 1..];
        i := i + 1;
      }
      if fullRaid.Some? {
        var entry := fullRaid.value;
        if entry.speed.Absent? {
          return;
        }
        speedRank := entry.speed.value;
        if entry.execution.Absent? {
          return;
        }
        executionRank := entry.execution.value;
        if entry.deaths.Absent? {
          return;
        }
        deaths := entry.deaths.value;
      }
    }

    /** The class-id workaround: every character whose id is 0 gets the id
        `lookup` gives for each actor's sub-type in turn. */
    method BackfillClassIds(actors: seq<Actor>, lookup: string -> int)
      modifies this
      ensures characters == Backfill(old(characters), actors, lookup)
      ensures State() == old(State()).(characters := characters)
    {
      var i := 0;
      while i < |characters|
        invariant 0 <= i <= |characters| == |old(characters)|
        invariant forall k :: 0 <= k < i ==> characters[k] == BackfillOne(old(characters)[k], actors, lookup)
        invariant forall k :: i <= k < |characters| ==> characters[k] == old(characters)[k]
        invariant State() == old(State()).(characters := characters)
      {
        if characters[i].classId == 0 {
          var j := 0;
          while j < |actors|
            invariant 0 <= j <= |actors|
            invariant |characters| == |old(characters)|
            invariant characters[i] == if j == 0 then old(characters)[i]
              else old(characters)[i].(classId := lookup(actors[j - 1].subType))
            invariant forall k :: 0 <= k < i ==> characters[k] == BackfillOne(old(characters)[k], actors, lookup)
            invariant forall k :: i < k < |characters| ==> characters[k] == old(characters)[k]
            invariant State() == old(State()).(characters := characters)
          {
            characters := characters[i := characters[i].(classId := lookup(actors[j].subType))];
            j := j + 1;
          }
        }
        i := i + 1;
      }
    }

    /** `from_api_object`: the steps below, in the source's order. */
    method FromApiObject(obj: ReportPayload, lookup: string -> int)
      modifies this
      ensures State() == Decode(old(State()), obj, lookup)
    {
      ReadIdentity(obj);
      ReadCharacters(obj, lookup);
      ReadFights(obj);
      ReadZone(obj.zone);
      if obj.startTime.Present? {
        AnchorFromOffsets(obj.startTime.value, obj.endTime);
      }
      if obj.zone.Present? {
        ReadZone(obj.zone);
        if obj.rankings.Present? {
          GetRankingsFromData(obj.rankings.value.data);
        }
      }
    }

    /** The `code`, `title` and `segments` steps of `from_api_object`. */
    method ReadIdentity(obj: ReportPayload)
      modifies this
      ensures State() == DecodeIdentity(old(State()), obj)
    {
      if obj.code.Present? {
        id := obj.code.value;
      }
      if obj.title.Present? {
        title := obj.title.value;
      }
      if obj.segments.Present? {
        segmentCount := obj.segments.value;
      }
    }

    /** The `rankedCharacters` step of `from_api_object`, with the class-id
        workaround when the payload also lists actors. */
    method ReadCharacters(obj: ReportPayload, lookup: string -> int)
      modifies this
      ensures State() == old(State()).(characters := DecodeCharacters(old(characters), obj, lookup))
    {
      if obj.rankedCharacters.Present? {
        characters := CharactersFrom(obj.rankedCharacters.value);
        if obj.masterData.Present? {
          if obj.masterData.value.actors.Present? {
            BackfillClassIds(obj.masterData.value.actors.value, lookup);
          }
        }
      }
    }

    /** The `fights` step of `from_api_object`. */
    method ReadFights(obj: ReportPayload)
      modifies this
      ensures State() == old(State()).(fights := if obj.fights.Present? then FightsFrom(obj.fights.value) else old(fights))
    {
      if obj.fights.Present? {
        fights := FightsFrom(obj.fights.value);
      }
    }

    /** The `zone` step of `from_api_object` (the source runs it twice). */
    method ReadZone(zone: Field<Option<Zone>>)
      modifies this
      ensures State() == DecodeRaid(old(State()), zone)
    {
      if zone.Present? {
        if zone.value.Some? {
          raid := zone.value.value.name;
        }
      }
    }

    /** The `startTime` step of `from_api_object`. */
    method AnchorFromOffsets(base: int, end: Field<int>)
      modifies this
      ensures State() == AnchorTimes(old(State()), Present(base), end)
    {
      var startOffset := GetEarliestStart();
      var endOffset := GetLatestEnd();
      if startOffset.Some? {
        startTime := base + startOffset.value;
        endTime := base + endOffset.value;
      } else {
        startTime := base;
        if end.Present? {
          endTime := end.value;
        }
      }
    }
  }
}
