/** The decoded JSON objects the Warcraft Logs API returns, as far as the
    client reads them. A key the client tests with `in` is a `Field`; a value
    that may be JSON null is an `Option`; a key the client indexes without a
    test is a plain field (a payload without it is not representable). */
module Payload {
  import opened Json

  /** An entry of `rankedCharacters`. */
  datatype CharacterPayload = CharacterPayload(name: Field<string>, classID: Field<int>)

  /** An entry of `fights`; times are millisecond offsets into the report. */
  datatype FightPayload = FightPayload(name: Field<string>, startTime: Field<int>, endTime: Field<int>)

  /** An entry of `masterData.actors`. */
  datatype Actor = Actor(subType: string)

  datatype MasterData = MasterData(actors: Field<seq<Actor>>)

  datatype Zone = Zone(name: string)

  /** An entry of `rankings.data`. `encounterName` stands for
      `encounter.name`; `speed` and `execution` stand for the `rankPercent`
      under those keys. Each is `Absent` when any key on its path is missing. */
  datatype RankingEntry = RankingEntry(
    encounterName: Field<string>,
    speed: Field<int>,
    execution: Field<int>,
    deaths: Field<int>)

  datatype Rankings = Rankings(data: seq<RankingEntry>)

  /** A report object: an entry of the guild listing or a single report. */
  datatype ReportPayload = ReportPayload(
    code: Field<string>,
    title: Field<string>,
    segments: Field<int>,
    rankedCharacters: Field<seq<CharacterPayload>>,
    masterData: Field<MasterData>,
    fights: Field<seq<FightPayload>>,
    zone: Field<Option<Zone>>,
    startTime: Field<int>,
    endTime: Field<int>,
    rankings: Field<Rankings>)
}
