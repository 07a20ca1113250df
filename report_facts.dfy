/** What `from_api_object` and its helpers promise, stated over the functions
    of module `Reports`. */
module ReportFacts {
  import opened Json
  import opened Payload
  import opened Characters
  import opened Fights
  import opened Reports
  import Helpers

  /** A `get_earliest_start` result is the smallest start offset of any fight. */
  lemma {:induction false} EarliestStartIsMinimum(fights: seq<Fight>)
    ensures EarliestStart(fights).Some? ==>
      (exists i :: 0 <= i < |fights| && fights[i].startTime == EarliestStart(fights).value) &&
      (forall i :: 0 <= i < |fights| ==> EarliestStart(fights).value <= fights[i].startTime)
    decreases |fights|
  {
    if |fights| > 0 {
      var init := fights[..|fights| - 1];
      EarliestStartIsMinimum(init);
      if |init| > 0 {
        var e := EarliestStart(init).value;
        var k :| 0 <= k < |init| && init[k].startTime == e;
        assert fights[k] == init[k];
        assert forall i :: 0 <= i < |init| ==> fights[i] == init[i];
      }
    }
  }

  /** A `get_latest_end` result is the largest end offset of any fight. */
  lemma {:induction false} LatestEndIsMaximum(fights: seq<Fight>)
    ensures LatestEnd(fights).Some? ==>
      (exists i :: 0 <= i < |fights| && fights[i].endTime == LatestEnd(fights).value) &&
      (forall i :: 0 <= i < |fights| ==> fights[i].endTime <= LatestEnd(fights).value)
    decreases |fights|
  {
    if |fights| > 0 {
      var init := fights[..|fights| - 1];
      LatestEndIsMaximum(init);
      if |init| > 0 {
        var l := LatestEnd(init).value;
        var k :| 0 <= k < |init| && init[k].endTime == l;
        assert fights[k] == init[k];
        assert forall i :: 0 <= i < |init| ==> fights[i] == init[i];
      }
    }
  }

  /** A ranking entry the search passes over: it names an encounter other
      than the raid. */
  predicate NamesOther(e: RankingEntry, raid: string) {
    e.encounterName.Present? && e.encounterName.value != raid
  }

  /** Every entry before index `i` names an encounter other than the raid. */
  predicate PassedOver(data: seq<RankingEntry>, raid: string, i: int) {
    forall j :: 0 <= j < i && j < |data| ==> NamesOther(data[j], raid)
  }

  /** The search result, entry by entry: a match is the first entry naming the
      raid, a missing key is the first entry without a name, and "no match"
      means every entry names another encounter. */
  lemma {:induction false} FindRaidCharacterised(data: seq<RankingEntry>, raid: string)
    ensures FindRaid(data, raid).Match? ==>
      exists i :: 0 <= i < |data| && data[i] == FindRaid(data, raid).entry &&
        data[i].encounterName == Present(raid) && PassedOver(data, raid, i)
    ensures FindRaid(data, raid).KeyMissing? ==>
      exists i :: 0 <= i < |data| && data[i].encounterName.Absent? && PassedOver(data, raid, i)
    ensures FindRaid(data, raid).NoMatch? <==> PassedOver(data, raid, |data|)
    decreases |data|
  {
    if |data| > 0 && data[0].encounterName.Present? && data[0].encounterName.value != raid {
      var rest := data[1..];
      FindRaidCharacterised(rest, raid);
      assert forall j :: 0 <= j < |rest| ==> rest[j] == data[j + 1];
      if FindRaid(rest, raid).Match? {
        var i :| 0 <= i < |rest| && rest[i] == FindRaid(rest, raid).entry &&
          rest[i].encounterName == Present(raid) && PassedOver(rest, raid, i);
        assert data[i + 1] == rest[i];
        assert PassedOver(data, raid, i + 1);
      }
      if FindRaid(rest, raid).KeyMissing? {
        var i :| 0 <= i < |rest| && rest[i].encounterName.Absent? && PassedOver(rest, raid, i);
        assert data[i + 1] == rest[i];
        assert PassedOver(data, raid, i + 1);
      }
      if PassedOver(data, raid, |data|) {
        assert PassedOver(rest, raid, |rest|);
      }
      if PassedOver(rest, raid, |rest|) {
        assert PassedOver(data, raid, |data|);
      }
    } else if |data| > 0 {
      assert !NamesOther(data[0], raid);
    }
  }

  /** Conversely, the first entry that names the raid is the one used. */
  lemma {:induction false} FindRaidFindsFirst(data: seq<RankingEntry>, raid: string, i: int)
    requires 0 <= i < |data|
    requires data[i].encounterName == Present(raid)
    requires PassedOver(data, raid, i)
    ensures FindRaid(data, raid) == Match(data[i])
    decreases i
  {
    if i > 0 {
      assert NamesOther(data[0], raid);
      assert data[1..][i - 1] == data[i];
      FindRaidFindsFirst(data[1..], raid, i - 1);
    }
  }

  /** A found entry's values are copied in order, and the first missing key
      stops the copying without undoing what was copied. */
  lemma ApplyRankingsFound(s: ReportState, data: seq<RankingEntry>)
    requires FindRaid(data, s.raid).Match?
    ensures var e := FindRaid(data, s.raid).entry; var r := ApplyRankings(s, data);
      r.speedRank == e.speed.GetOr(s.speedRank) &&
      r.executionRank == (if e.speed.Present? then e.execution.GetOr(s.executionRank) else s.executionRank) &&
      r.deaths == (if e.speed.Present? && e.execution.Present? then e.deaths.GetOr(s.deaths) else s.deaths)
  {
  }

  /** Every key the payload lacks leaves its field as it was. */
  lemma DecodeKeepsAbsentFields(s: ReportState, obj: ReportPayload, lookup: string -> int)
    ensures var r := Decode(s, obj, lookup);
      (obj.code.Absent? ==> r.id == s.id) &&
      (obj.title.Absent? ==> r.title == s.title) &&
      (obj.segments.Absent? ==> r.segmentCount == s.segmentCount) &&
      (obj.rankedCharacters.Absent? ==> r.characters == s.characters) &&
      (obj.fights.Absent? ==> r.fights == s.fights) &&
      ((obj.zone.Absent? || obj.zone.value.None?) ==> r.raid == s.raid) &&
      (obj.startTime.Absent? ==> r.startTime == s.startTime && r.endTime == s.endTime) &&
      ((obj.zone.Absent? || obj.rankings.Absent?) ==>
        r.speedRank == s.speedRank && r.executionRank == s.executionRank && r.deaths == s.deaths)
  {
    var r := Decode(s, obj, lookup);
    var beforeRankings := AnchorTimes(
      DecodeRaid(DecodeIdentity(s, obj).(characters := DecodeCharacters(s.characters, obj, lookup),
        fights := if obj.fights.Present? then FightsFrom(obj.fights.value) else s.fights), obj.zone),
      obj.startTime, obj.endTime);
    if obj.zone.Present? && obj.rankings.Present? {
    }
  }

  /** Every key the payload has sets its field: identity, title, segments,
      and the raid from a non-null zone. */
  lemma DecodeTakesPresentFields(s: ReportState, obj: ReportPayload, lookup: string -> int)
    ensures var r := Decode(s, obj, lookup);
      (obj.code.Present? ==> r.id == obj.code.value) &&
      (obj.title.Present? ==> r.title == obj.title.value) &&
      (obj.segments.Present? ==> r.segmentCount == obj.segments.value) &&
      (obj.zone.Present? && obj.zone.value.Some? ==> r.raid == obj.zone.value.value.name)
  {
    var r := Decode(s, obj, lookup);
    var beforeRankings := AnchorTimes(
      DecodeRaid(DecodeIdentity(s, obj).(characters := DecodeCharacters(s.characters, obj, lookup),
        fights := if obj.fights.Present? then FightsFrom(obj.fights.value) else s.fights), obj.zone),
      obj.startTime, obj.endTime);
    if obj.zone.Present? && obj.rankings.Present? {
    }
  }

  /** `characters` is the payload's list decoded one to one, in order; the
      class-id workaround only rewrites ids that decoded to 0, only when the
      payload lists at least one actor, and then with the last actor's
      sub-type. */
  lemma DecodeCharactersOneToOne(s: ReportState, obj: ReportPayload, lookup: string -> int)
    requires obj.rankedCharacters.Present?
    ensures var r := Decode(s, obj, lookup); var list := obj.rankedCharacters.value;
      var actors := ActorsOf(obj.masterData);
      |r.characters| == |list| &&
      forall i :: 0 <= i < |list| ==>
        r.characters[i].name == CharacterFrom(list[i]).name &&
        (CharacterFrom(list[i]).classId != 0 ==> r.characters[i] == CharacterFrom(list[i])) &&
        ((actors.Absent? || actors.value == []) ==> r.characters[i] == CharacterFrom(list[i])) &&
        (CharacterFrom(list[i]).classId == 0 && actors.Present? && actors.value != [] ==>
          r.characters[i].classId == lookup(actors.value[|actors.value| - 1].subType))
  {
    var r := Decode(s, obj, lookup);
    DecodeCharactersField(s, obj, lookup);
  }

  lemma DecodeCharactersField(s: ReportState, obj: ReportPayload, lookup: string -> int)
    ensures Decode(s, obj, lookup).characters == DecodeCharacters(s.characters, obj, lookup)
    ensures Decode(s, obj, lookup).fights == (if obj.fights.Present? then FightsFrom(obj.fights.value) else s.fights)
  {
    var beforeRankings := AnchorTimes(
      DecodeRaid(DecodeIdentity(s, obj).(characters := DecodeCharacters(s.characters, obj, lookup),
        fights := if obj.fights.Present? then FightsFrom(obj.fights.value) else s.fights), obj.zone),
      obj.startTime, obj.endTime);
    if obj.zone.Present? && obj.rankings.Present? {
    }
  }

  /** `fights` is the payload's list decoded one to one, in order. */
  lemma DecodeFightsOneToOne(s: ReportState, obj: ReportPayload, lookup: string -> int)
    requires obj.fights.Present?
    ensures var r := Decode(s, obj, lookup); var list := obj.fights.value;
      |r.fights| == |list| && forall i :: 0 <= i < |list| ==> r.fights[i] == FightFrom(list[i])
  {
    DecodeCharactersField(s, obj, lookup);
  }

  /** The times `from_api_object` sets, before the rankings step (which does
      not touch them). */
  lemma DecodeTimes(s: ReportState, obj: ReportPayload, lookup: string -> int)
    ensures var r := Decode(s, obj, lookup);
      r.startTime == AnchoredStart(s.(fights := r.fights), obj.startTime) &&
      r.endTime == AnchoredEnd(s.(fights := r.fights), obj.startTime, obj.endTime)
  {
    DecodeCharactersField(s, obj, lookup);
    var beforeRankings := AnchorTimes(
      DecodeRaid(DecodeIdentity(s, obj).(characters := DecodeCharacters(s.characters, obj, lookup),
        fights := if obj.fights.Present? then FightsFrom(obj.fights.value) else s.fights), obj.zone),
      obj.startTime, obj.endTime);
    if obj.zone.Present? && obj.rankings.Present? {
    }
  }

  /** With `startTime` and at least one fight, the report runs from
      `startTime` plus the earliest fight start to `startTime` plus the latest
      fight end. */
  lemma DecodeAnchorsToFights(s: ReportState, obj: ReportPayload, lookup: string -> int)
    requires obj.startTime.Present?
    requires |Decode(s, obj, lookup).fights| > 0
    ensures var r := Decode(s, obj, lookup); var base := obj.startTime.value;
      (exists i :: 0 <= i < |r.fights| && r.startTime == base + r.fights[i].startTime) &&
      (forall i :: 0 <= i < |r.fights| ==> r.startTime <= base + r.fights[i].startTime) &&
      (exists i :: 0 <= i < |r.fights| && r.endTime == base + r.fights[i].endTime) &&
      (forall i :: 0 <= i < |r.fights| ==> base + r.fights[i].endTime <= r.endTime)
  {
    var r := Decode(s, obj, lookup);
    DecodeTimes(s, obj, lookup);
    EarliestStartIsMinimum(r.fights);
    LatestEndIsMaximum(r.fights);
  }

  /** Hence a report whose fights each end no earlier than they start does not
      end before it starts. */
  lemma DecodeSpanOrdered(s: ReportState, obj: ReportPayload, lookup: string -> int)
    requires obj.startTime.Present?
    requires |Decode(s, obj, lookup).fights| > 0
    requires forall f :: f in Decode(s, obj, lookup).fights ==> f.startTime <= f.endTime
    ensures Decode(s, obj, lookup).startTime <= Decode(s, obj, lookup).endTime
  {
    var r := Decode(s, obj, lookup);
    DecodeAnchorsToFights(s, obj, lookup);
    var i :| 0 <= i < |r.fights| && r.startTime == obj.startTime.value + r.fights[i].startTime;
    assert r.fights[i] in r.fights;
  }

  /** With `startTime` and no fight, the report starts at `startTime` and ends
      at `endTime` if that key is present, else where it ended before. */
  lemma DecodeWithoutFights(s: ReportState, obj: ReportPayload, lookup: string -> int)
    requires obj.startTime.Present?
    requires Decode(s, obj, lookup).fights == []
    ensures Decode(s, obj, lookup).startTime == obj.startTime.value
    ensures Decode(s, obj, lookup).endTime == obj.endTime.GetOr(s.endTime)
  {
    DecodeTimes(s, obj, lookup);
  }

  /** The rankings step runs whenever the `zone` key exists, null or not, and
      searches for the raid the report has by then. */
  lemma DecodeRankingsWithZoneKey(s: ReportState, obj: ReportPayload, lookup: string -> int)
    requires obj.zone.Present? && obj.rankings.Present?
    ensures var r := Decode(s, obj, lookup);
      var t := ApplyRankings(s.(raid := r.raid), obj.rankings.value.data);
      r.speedRank == t.speedRank && r.executionRank == t.executionRank && r.deaths == t.deaths
  {
    var beforeRankings := AnchorTimes(
      DecodeRaid(DecodeIdentity(s, obj).(characters := DecodeCharacters(s.characters, obj, lookup),
        fights := if obj.fights.Present? then FightsFrom(obj.fights.value) else s.fights), obj.zone),
      obj.startTime, obj.endTime);
  }

  /** A report's duration string always reads back as a non-negative count
      below one day. */
  lemma ReportDurationStrReadBack(r: ReportState)
    ensures Helpers.ParseDuration(r.DurationStr()).Some?
    ensures Helpers.ParseDuration(r.DurationStr()).value < 86400
  {
    Helpers.DurationStrReadBack(r.Duration());
  }
}
