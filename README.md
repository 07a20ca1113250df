# warcraftlogger API client, modelled in Dafny

This project models `warcraftlogs/api.py`, the Warcraft Logs client of a guild chat bot. That file holds the following pieces:

- the free functions `get_id_from_url` (pull a report code out of a report link) and `sec_to_str` (format a number of seconds as `XhYm`, `XmYs` or `Xs`);
- the value objects `Character` (a ranked player and its class label, from the `CLASS_NAME` table of `warcraftlogs/constants.py`) and `Fight` (a killed encounter with start and end offsets);
- `Report`, filled in field by field from a report payload by `from_api_object`. The helpers of that decode are `get_earliest_start`, `get_latest_end`, `get_rankings_from_data` and the class-id workaround for ranked characters whose class came back as 0;
- `APIException` and its `str` text;
- `APIManager`, the session: the bearer token, the `Authorization` header, the `authenticated` flag and the map of reports fetched so far. It has three operations: `auth_user`, `get_reports` and `get_report`.

The modules follow that structure:

| module | file | models |
|---|---|---|
| `Json` | json.dfy | `Option` for JSON `null`, `Field` for a key that may be absent, `Result` |
| `PyStr` | pystr.dfy | the Python string built-ins the core uses: `str(int)`, `str.split`, `in` |
| `Constants` | constants.dfy | `CLASS_NAME` |
| `Payload` | payload.dfy | the shapes of the JSON objects the decoders read |
| `Helpers` | helpers.dfy | `get_id_from_url`, `sec_to_str`, `timedelta.seconds` |
| `Characters` | character.dfy | `Character` |
| `Fights` | fight.dfy | `Fight` |
| `Reports` | report.dfy | `Report` as a class, and the functions that specify its methods |
| `ReportFacts` | report_facts.dfy | what `from_api_object` promises, as lemmas |
| `Manager` | manager.dfy | `APIException`, `APIManager` as a class, and `get_report` as a function |

Times are whole milliseconds. A fight's offsets are milliseconds from the report's start, and a report's times are milliseconds since the epoch. `timedelta.seconds` is the seconds within a day of a duration, with Python's floored days, so a negative duration wraps to almost a day.

The two `datetime.now()` readings that a new `Report` uses as its start and end are the `LoadTimes` parameter. The function `lookup_class_id` is the parameter `lookup`. The HTTP exchange of each `APIManager` method becomes a parameter that holds what the server answered, already decoded from JSON.

`Report` and `APIManager` are classes whose methods change their fields. `Report.State()` reads a report's fields as a `ReportState` value. Each method of `Report` is proved against a function on that value. For example, `FromApiObject` ensures `State() == Decode(old(State()), obj, lookup)`, and the lemmas in `ReportFacts` state what `Decode` does. `ApiManager.Listing()` reads the stored reports as values. `GetReports` is proved against `MergeListing`, and the `MergeListing*` lemmas say which key holds what afterwards.

Some behaviours of the code are easy to misread; the model follows the code:

- `get_reports` stores each listed report under its id over the reports already held. It does not replace the map wholesale, so reports from an earlier listing stay (`MergeListingKeeps`).
- `get_report` never returns `None`. A null report makes `from_api_object` raise a `TypeError`, which the catch-all turns into an `APIException`. So does the non-200 status raised inside the `try`, whose text is lost on the way (`FetchReport`, `FetchReportLosesStatus`).
- The class-id workaround does not match actors to characters. For every character whose id is 0, the id is overwritten once per actor, so the last actor's sub-type decides. An id of 0 stays 0 when `masterData` or its `actors` key is absent, when the actor list is empty, or when `lookup` maps the last sub-type to 0 (`DecodeCharactersOneToOne`).
- A class id of 0 is labelled "Unknown", not "UNKNOWN CLASS ID: 0", because `CLASS_NAME` lists 0 (`PlayerClassExamples`).
- The report's `endTime` is used only when `startTime` is present and there is no fight. With fights, the end is `startTime` plus the latest fight end (`DecodeTimes`).
- The rankings step runs whenever the `zone` key exists, even when it holds null. A missing key inside the matching ranking entry stops the assignments partway, and the values already copied stay (`ApplyRankingsFound`).

## Model

| member | source | states |
|---|---|---|
| PyStr.IntToString | warcraftlogs/api.py:52 | `str(i)` is never empty; it starts with a digit exactly when `i >= 0` and with `-` exactly when `i < 0` |
| PyStr.IntToStringRoundTrip | warcraftlogs/api.py:52 | the decimal text `str(i)` reads back as `i`, for negative `i` too |
| PyStr.Split | warcraftlogs/api.py:19-20 | `str.split` gives at least one piece; the lemmas below fix the pieces for separators that cannot overlap themselves, such as `reports/` and `#` |
| PyStr.Occurs | warcraftlogs/api.py:17 | `sep in s`: the empty separator is in every string, and a separator in `s` is no longer than `s` |
| PyStr.OccursIffFound | warcraftlogs/api.py:17-19 | `sep in s` holds exactly when the left-to-right search used by `split` finds `sep` |
| PyStr.SplitJoin | warcraftlogs/api.py:19 | joining the pieces of `s.split(sep)` with `sep` gives back `s` |
| PyStr.SplitPiecesFree | warcraftlogs/api.py:19 | no piece of `s.split(sep)` contains `sep` |
| PyStr.SplitLastPiece | warcraftlogs/api.py:19 | when `sep` occurs, the last piece is a suffix of `s` directly preceded by `sep` |
| PyStr.SplitFirstPiece | warcraftlogs/api.py:20 | the first piece of `s.split(sep)` is a prefix of `s` followed by `sep` or the end of `s` |
| Helpers.GetIdFromUrl | warcraftlogs/api.py:16-20 | the result is `None` exactly when the url is empty or lacks `reports/`; a code it returns has no `#` |
| Helpers.GetIdFromUrlLocatesCode | warcraftlogs/api.py:16-20 | a returned code follows the last `reports/` of the url and runs up to the next `#` or the end |
| Helpers.GetIdFromUrlOfLink | warcraftlogs/api.py:16-20 | a link `site + "reports/" + code + "#" + fragment` yields `code` for any site, when the code has no `#` and no `reports/` follows the marker |
| Helpers.GetIdFromUrlExample | warcraftlogs/api.py:16-20 | a report link with a fight fragment yields its code; a url without `reports/` and the empty url yield `None` |
| Helpers.SecToStr | warcraftlogs/api.py:23-28 | the text ends in `m` exactly above an hour and in `s` otherwise, and starts with a digit exactly for a non-negative count |
| Helpers.SecToStrReadBack | warcraftlogs/api.py:23-28 | the text reads back as the seconds, exactly up to an hour and to the minute above an hour |
| Helpers.ReadBackHours | warcraftlogs/api.py:24-25 | above 3600 seconds the text `XhYm` reads back as the seconds without the last partial minute |
| Helpers.ReadBackMinutes | warcraftlogs/api.py:26-27 | from 61 to 3600 seconds the text `XmYs` reads back as the seconds exactly |
| Helpers.SecToStrForm | warcraftlogs/api.py:23-28 | the text is `Ss` up to 60 seconds, `MmSs` with at least one minute and fewer than 60 seconds up to an hour, and `HhMm` with at least one hour and fewer than 60 minutes above |
| Helpers.MinutesFormUnique | warcraftlogs/api.py:26-27 | from 61 to 3600 seconds, the only `MmSs` text with fewer than 60 seconds that reads back as the count is the one `sec_to_str` gives |
| Helpers.HoursFormUnique | warcraftlogs/api.py:24-25 | above 3600 seconds, the only `HhMm` text with fewer than 60 minutes that reads back as the count cut to the minute is the one `sec_to_str` gives |
| Helpers.SecToStrExamples | warcraftlogs/api.py:23-28 | the bounds are strict: 60 is `60s`, 3600 is `60m0s`, 3725 is `1h2m` |
| Helpers.DaySeconds | warcraftlogs/api.py:77 | `timedelta.seconds` is below one day |
| Helpers.DaySecondsNormalForm | warcraftlogs/api.py:77 | a duration is its floored days, its `seconds` and its sub-second rest |
| Helpers.DurationStr | warcraftlogs/api.py:75-77 | `sec_to_str(duration.seconds)` starts with a digit and ends in `m` or `s` |
| Helpers.DurationStrReadBack | warcraftlogs/api.py:75-77 | a duration string always starts with a digit and reads back as fewer than 86400 seconds |
| Characters.CharacterFrom | warcraftlogs/api.py:36-45 | each key sets its own field whatever the other key does; an absent `name` leaves `""` and an absent `classID` leaves -1 |
| Characters.CharacterRoundTrip | warcraftlogs/api.py:36-45 | a payload with both keys decodes to exactly the character it was made from |
| Characters.Character.PlayerClass | warcraftlogs/api.py:47-52 | the label is the `UNKNOWN CLASS ID: ` fallback exactly when the id is not in `CLASS_NAME` |
| Characters.PlayerClassReadBack | warcraftlogs/api.py:47-52 | every class label, table entry or fallback, reads back as the class id it was made from |
| Characters.PlayerClassInjective | warcraftlogs/api.py:47-52 | characters with the same label have the same class id |
| Characters.PlayerClassFallback | warcraftlogs/api.py:52 | an id outside the table gives the `UNKNOWN CLASS ID: ` prefix followed by the id |
| Characters.PlayerClassExamples | warcraftlogs/constants.py:19-30 | 0 is "Unknown" and 4 is "Mage"; the gaps 5 and 6 and the unset -1 fall back |
| Fights.FightFrom | warcraftlogs/api.py:63-69 | each present key sets its own field whatever the other keys do; absent keys leave the name empty and the offsets 0 |
| Fights.FightRoundTrip | warcraftlogs/api.py:63-69 | a payload with every key decodes to exactly the fight it was made from |
| Fights.Fight.Duration | warcraftlogs/api.py:71-73 | the fight's start shifted by its duration is its end |
| Fights.Fight.DurationStr | warcraftlogs/api.py:75-77 | a fight's duration string starts with a digit, even for a negative duration |
| Fights.FightDurationStrReadBack | warcraftlogs/api.py:71-77 | `duration_str` reads back as the duration's seconds within a day, to the minute above an hour |
| Fights.NegativeDurationWraps | warcraftlogs/api.py:71-77 | a fight ending 5 s before it starts shows as `23h59m` |
| Reports.CharactersFrom | warcraftlogs/api.py:142-144 | one character per payload entry, in order |
| Reports.FightsFrom | warcraftlogs/api.py:153-156 | one fight per payload entry, in order |
| Reports.ReportState.Duration | warcraftlogs/api.py:96-98 | the report's start shifted by its duration is its end |
| Reports.NewReport | warcraftlogs/api.py:83-94 | a new report starts and ends at the shared load readings, with no characters and no fights |
| Reports.ReportState.DurationStr | warcraftlogs/api.py:100-102 | a report's duration string starts with a digit, even when the report ends before it starts |
| Reports.EarliestStart | warcraftlogs/api.py:104-109 | `get_earliest_start` is `None` exactly when there are no fights |
| Reports.LatestEnd | warcraftlogs/api.py:111-116 | `get_latest_end` is `None` exactly when there are no fights |
| Reports.BackfillOne | warcraftlogs/api.py:147-151 | the name is kept; an id other than 0, or an empty actor list, leaves the character alone; otherwise the id is the last actor's looked-up id |
| Reports.Backfill | warcraftlogs/api.py:147-151 | the list keeps its length and names, and every character not rewritten is unchanged |
| Reports.FindRaid | warcraftlogs/api.py:119-124 | a match is an entry of the data whose encounter is the raid |
| Reports.TakeRanks | warcraftlogs/api.py:125-128 | only `speed_rank`, `execution_rank` and `deaths` can change |
| Reports.ApplyRankings | warcraftlogs/api.py:118-132 | only `speed_rank`, `execution_rank` and `deaths` can change, and none does without a match |
| Reports.DecodeIdentity | warcraftlogs/api.py:135-140 | only `id`, `title` and `segment_count` can change; each takes its key's value when present and is kept otherwise |
| Reports.DecodeCharacters | warcraftlogs/api.py:141-151 | without `rankedCharacters` the list is kept; with it there is one character per entry with that entry's name, and without `masterData.actors` the list is the plain decode |
| Reports.DecodeRaid | warcraftlogs/api.py:157-159 | only `raid` can change; a present non-null zone sets it to the zone's name, and an absent or null zone keeps it |
| Reports.AnchorTimes | warcraftlogs/api.py:160-169 | only the two times can change; without `startTime` nothing changes; with it and fights the times are `startTime` plus the earliest start and latest end, and without fights `startTime` and `endTime` when present |
| Reports.DecodeRankings | warcraftlogs/api.py:170-174 | only the three rank fields can change, and nothing changes without both `zone` and `rankings` |
| Reports.Decode | warcraftlogs/api.py:134-174 | the decoded report has one character and one fight per payload entry when those keys are present, else the old lists' lengths |
| Reports.Report.constructor | warcraftlogs/api.py:83-94 | a new report holds the class defaults, dated at the load times |
| Reports.Report.GetEarliestStart | warcraftlogs/api.py:104-109 | the loop returns `EarliestStart` of the fights, which `EarliestStartIsMinimum` characterises |
| Reports.Report.GetLatestEnd | warcraftlogs/api.py:111-116 | the loop returns `LatestEnd` of the fights, which `LatestEndIsMaximum` characterises |
| Reports.Report.GetRankingsFromData | warcraftlogs/api.py:118-132 | the new fields are `ApplyRankings` of the old ones: search, early exit on a missing key, partial copy |
| Reports.Report.BackfillClassIds | warcraftlogs/api.py:145-151 | each character with id 0 gets the last actor's looked-up id; other fields and characters are unchanged |
| Reports.Report.FromApiObject | warcraftlogs/api.py:134-174 | the new fields are `Decode` of the old fields and the payload |
| Reports.Report.ReadIdentity | warcraftlogs/api.py:135-140 | `code`, `title` and `segments` override `id`, `title` and `segment_count` when present |
| Reports.Report.ReadCharacters | warcraftlogs/api.py:141-151 | only `characters` changes, to the decoded and backfilled list when `rankedCharacters` is present |
| Reports.Report.ReadFights | warcraftlogs/api.py:153-156 | only `fights` changes, to the decoded list when `fights` is present |
| Reports.Report.ReadZone | warcraftlogs/api.py:157-159 | only `raid` changes, to the zone's name when `zone` is present and not null |
| Reports.Report.AnchorFromOffsets | warcraftlogs/api.py:160-169 | the start and end become `startTime` plus the fight offsets, or `startTime` and `endTime` without fights |
| ReportFacts.EarliestStartIsMinimum | warcraftlogs/api.py:104-109 | a result is the start of some fight and no larger than any |
| ReportFacts.LatestEndIsMaximum | warcraftlogs/api.py:111-116 | a result is the end of some fight and no smaller than any |
| ReportFacts.FindRaidCharacterised | warcraftlogs/api.py:119-124 | a match is the first entry naming the raid; a missing key is the first unnamed entry; no match iff every entry names another encounter |
| ReportFacts.FindRaidFindsFirst | warcraftlogs/api.py:121-124 | the first entry naming the raid, after entries naming others, is the one found |
| ReportFacts.ApplyRankingsFound | warcraftlogs/api.py:125-132 | a match copies speed, then execution, then deaths, and the first missing key stops the rest |
| ReportFacts.DecodeKeepsAbsentFields | warcraftlogs/api.py:134-174 | every field whose key the payload lacks keeps its old value |
| ReportFacts.DecodeTakesPresentFields | warcraftlogs/api.py:135-172 | `code`, `title`, `segments` and a non-null `zone` set their fields |
| ReportFacts.DecodeCharactersOneToOne | warcraftlogs/api.py:141-151 | characters are the payload's list one to one; only ids 0 are rewritten, and only from a non-empty actor list with its last sub-type |
| ReportFacts.DecodeCharactersField | warcraftlogs/api.py:141-156 | the decoded `characters` and `fights` are those of their own steps; later steps do not touch them |
| ReportFacts.DecodeFightsOneToOne | warcraftlogs/api.py:153-156 | fights are the payload's list decoded one to one, in order |
| ReportFacts.DecodeTimes | warcraftlogs/api.py:160-169 | the report's times are anchored on `startTime` using the decoded fights |
| ReportFacts.DecodeAnchorsToFights | warcraftlogs/api.py:160-165 | with fights, the report spans `startTime` plus the earliest start to `startTime` plus the latest end |
| ReportFacts.DecodeSpanOrdered | warcraftlogs/api.py:160-165 | if every fight ends no earlier than it starts, the report does not end before it starts |
| ReportFacts.DecodeWithoutFights | warcraftlogs/api.py:166-169 | without fights the report starts at `startTime` and ends at `endTime` when present, else as before |
| ReportFacts.DecodeRankingsWithZoneKey | warcraftlogs/api.py:170-174 | with a `zone` key, null or not, the ranks come from the rankings search for the raid held by then |
| ReportFacts.ReportDurationStrReadBack | warcraftlogs/api.py:96-102 | a report's duration string reads back as fewer than 86400 seconds |
| Manager.ExceptionStrAsWritten | warcraftlogs/api.py:9-13 | as written, the text is `API Exception: ` followed by the class default, whatever the argument |
| Manager.ExceptionStrAsWrittenLosesStatus | warcraftlogs/api.py:9-13 | as written, two exceptions raised for different status codes print the same text |
| Manager.ExceptionStr | warcraftlogs/api.py:9-13 | the intended text is `API Exception: ` followed by the raised argument |
| Manager.ExceptionStrInjective | warcraftlogs/api.py:9-13 | with the intended text, exceptions that print the same carry the same argument |
| Manager.FetchReport | warcraftlogs/api.py:232-252 | as written: success exactly for status 200 with a non-null report, decoded from a fresh report; every failure's argument starts with `Error during fetching of report: ` |
| Manager.FetchReportLosesStatus | warcraftlogs/api.py:246-252 | as written, every non-200 status gives the same exception, whose text is the class default: the status is lost |
| Manager.FetchReportIntended | warcraftlogs/api.py:246-252 | as intended, only the non-200 text differs from `FetchReport`: the same successes, and every failure keeps the catch-all prefix |
| Manager.FetchReportIntendedStatusReadBack | warcraftlogs/api.py:246-252 | as intended, a non-200 status can be read back from the final exception's argument |
| Manager.DecodedIdIsListingKey | warcraftlogs/api.py:221-224 | a listed report is stored under its `code`, or `""` without one |
| Manager.MergeListing | warcraftlogs/api.py:220-224 | the loop of `get_reports` keeps every key it finds |
| Manager.MergeListingKeys | warcraftlogs/api.py:220-224 | after a listing the keys are the old keys plus the listed codes; nothing is removed |
| Manager.MergeListingLastWins | warcraftlogs/api.py:220-224 | a code listed more than once holds the report decoded from its last occurrence |
| Manager.MergeListingKeeps | warcraftlogs/api.py:220-224 | a stored report whose code is not listed is kept unchanged |
| Manager.ApiManager.constructor | warcraftlogs/api.py:181-187 | no token, no headers, no reports, not authenticated, and the credentials from the environment |
| Manager.ApiManager.AuthUser | warcraftlogs/api.py:189-201 | a token sets the `Authorization: Bearer` header and `authenticated`; a failure raises `Authentication error: ...` and changes nothing |
| Manager.ApiManager.GetReports | warcraftlogs/api.py:203-230 | on 200 the stored reports become `MergeListing` of the old ones, each entry old or freshly made; otherwise it raises with the status or the undefined error and changes nothing |
| Manager.ApiManager.StoreReport | warcraftlogs/api.py:221-224 | one new report, decoded from the entry, is stored under its id and every other entry is kept |
| Manager.ApiManager.GetReport | warcraftlogs/api.py:232-252 | returns a fresh report whose fields are `FetchReport`'s value, or `FetchReport`'s exception, with the status lost as written |

## Left out

- The HTTP requests, `response.json()`, the GraphQL query texts (`warcraftlogs/query.py` is not part of this model) and `async` scheduling are left out. Each method takes the outcome of its request as a parameter. The `report_id` argument of `get_report` and the guild id only go into the request, so they are not modelled.
- The texts of Python's own exceptions are left out. These are a failed request, a missing `access_token` and a `KeyError` on the envelope path. Each is a `cause` string parameter. A null report is the one exception whose text is modelled: it is the `TypeError` that `"code" in None` raises.
- Payloads whose shape makes `from_api_object` raise are left out. Examples are a missing `name` inside a non-null `zone`, a missing `subType`, a missing `data` under `rankings`, and a non-list where a list is expected. Such shapes cannot be written as a `ReportPayload`.
- A null anywhere on the listing's path `data.reportData.reports.data` is not modelled. A GraphQL error body with `"data": null` makes the subscript at `warcraftlogs/api.py:215` raise a `TypeError`, and a null final `data` makes `len(None)` raise one at `warcraftlogs/api.py:220`. `except KeyError` catches neither, so the `TypeError` escapes `get_reports` unwrapped. Only a missing key on that path, which the code turns into an empty list, is modelled (`None` in `Listing.data`).
- `lookup_class_id` is not defined anywhere in the repository, so the workaround would raise `NameError` when it runs. It is modelled as the parameter `lookup`.
- `print` calls, `__repr__` and `run.py` (the bot that calls the client) are left out. So are the `os.getenv` reads of `warcraftlogs/constants.py`, whose values are the constructor's parameters.
- Floating point is left out: `startTime / 1000` and `timedelta(seconds=...)` are whole milliseconds. `sec_to_str` is modelled on the integer `timedelta.seconds` that all its callers pass.
- `datetime.fromtimestamp` is left out. It works in local time, so a daylight-saving change between two times shifts a duration. The model works on epoch milliseconds.
- Nothing guards the use of a session before `auth_user`, and the model adds no guard either.
- `Character` and `Fight` are values. The workaround mutates `Character` objects in place, but each one is new and held only by its report's list, so no aliasing is lost. `rankPercent` is an integer.
- The insertion order of the `reports` dict is not modelled: `map<string, Report>` has no order. The caller in `run.py` lists `reports.items()` in that order and shows the first five. A code listed again keeps its old position there.
- JSON `null` is modelled only under `zone` and for the whole report of `get_report`. Under `code`, `title`, `segments` and a character's `name` or `classID` (`warcraftlogs/api.py:135-140`, `37-40`), a null is stored as `None` without raising; so is a null fight `name`, zone `name`, encounter `name`, `rankPercent` or `deaths`. A null under `rankedCharacters`, `masterData`, `fights`, the report's `startTime`, a fight's `startTime` or `endTime`, `rankings`, or a ranking entry's `encounter`, `speed` or `execution` makes `from_api_object` raise a `TypeError` instead, as the shapes of the previous lines do (`warcraftlogs/api.py:67-69`, `122-127`, `141-174`); `except KeyError` at `warcraftlogs/api.py:131` does not catch it, `get_reports` lets it escape, and `get_report` wraps it in its catch-all. The payload types cannot express a null under any of these keys.

## Findings

| source | as written | input that shows it | evidently intended | confidence | as-written member | corrected member |
|---|---|---|---|---|---|---|
| warcraftlogs/api.py:9-13 | `APIException` never stores the argument it is raised with in `message`, so `str(e)` always prints the class default `API Exception: Warcraft Logs API threw an unknown error` | `APIException("Unable to fetch single report, status code 404")` and the same with 500 print identical text. `get_report` and `get_reports` therefore lose the status and the cause. | `str(e)` is `API Exception: ` followed by the argument raised | high, not executed | Manager.ExceptionStrAsWrittenLosesStatus | Manager.ExceptionStrInjective |
| warcraftlogs/api.py:246-252 | `get_report` raises the status exception inside its own `try`; the catch-all formats it with `str`, so the final message is `Error during fetching of report: API Exception: Warcraft Logs API threw an unknown error` for every status | statuses 404 and 500 give identical exceptions | the final message carries `Unable to fetch single report, status code N` | high, not executed | Manager.FetchReportLosesStatus | Manager.FetchReportIntendedStatusReadBack |

`FetchReport` and `ApiManager.GetReport` follow the code as written. `FetchReportIntended` differs from `FetchReport` only in the non-200 text, and it is used only to state the intended behaviour.
