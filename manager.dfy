/** `APIException` and `APIManager` of `warcraftlogs/api.py`, with the HTTP
    exchange replaced by its outcome: the caller passes in what the server
    answered, already decoded from JSON. */
module Manager {
  import opened Json
  import opened PyStr
  import opened Payload
  import opened Reports
  import ReportFacts

  /** An `APIException` raised with `argument`, which Python keeps in `args[0]`. */
  datatype ApiException = ApiException(argument: string)

  /** The class attribute `APIException.message`. */
  const DefaultMessage: string := "Warcraft Logs API threw an unknown error"

  const ExceptionPrefix: string := "API Exception: "

  /** `str(e)` as written: the argument given to the constructor is kept by
      `Exception` but never stored in `message`, so the class attribute is
      printed for every exception. */
  function ExceptionStrAsWritten(e: ApiException): (text: string)
    ensures |text| == |ExceptionPrefix| + |DefaultMessage|
    ensures text[..|ExceptionPrefix|] == ExceptionPrefix && text[|ExceptionPrefix|..] == DefaultMessage
  {
    ExceptionPrefix + DefaultMessage
  }

  /** Two exceptions raised for different status codes print the same text. */
  lemma ExceptionStrAsWrittenLosesStatus()
    ensures ApiException("Unable to fetch single report, status code 404") !=
            ApiException("Unable to fetch single report, status code 500")
    ensures ExceptionStrAsWritten(ApiException("Unable to fetch single report, status code 404")) ==
            ExceptionStrAsWritten(ApiException("Unable to fetch single report, status code 500"))
  {
    assert "Unable to fetch single report, status code 404"[45] != "Unable to fetch single report, status code 500"[45];
  }

  /** `str(e)` as intended: the prefix followed by the argument raised. */
  function ExceptionStr(e: ApiException): (text: string)
    ensures |text| == |ExceptionPrefix| + |e.argument|
    ensures text[..|ExceptionPrefix|] == ExceptionPrefix
    ensures text[|ExceptionPrefix|..] == e.argument
  {
    ExceptionPrefix + e.argument
  }

  /** With the intended text, exceptions with different arguments print
      differently. */
  lemma ExceptionStrInjective(a: ApiException, b: ApiException)
    requires ExceptionStr(a) == ExceptionStr(b)
    ensures a == b
  {
    assert a.argument == ExceptionStr(a)[|ExceptionPrefix|..];
  }

  /** What the token endpoint gave: an access token, or the text of the error
      raised while posting or reading `access_token`. */
  datatype AuthResponse = AuthGranted(accessToken: string) | AuthFailed(cause: string)

  /** What the guild listing query gave: no response (the request raised), or
      a status with the list under `data.reportData.reports.data` (`None` when
      a key on that path is missing). */
  datatype ListingResponse =
    | ListingUnreachable
    | Listing(status: int, data: Option<seq<ReportPayload>>)

  /** The value under `data.reportData.report`, or the text of the error raised
      while looking it up. */
  datatype DetailBody = ReportAt(report: Option<ReportPayload>) | BadEnvelope(cause: string)

  /** What the single report query gave: no response (with the text of the
      error the request raised), or a status with its body. */
  datatype DetailResponse =
    | DetailUnreachable(cause: string)
    | Detail(status: int, body: DetailBody)

  /** A method that returns normally, or the exception it raises. */
  datatype Outcome = Done | Raised(error: ApiException)

  /** The text of the `TypeError` that `"code" in None` raises. */
  const NullReportCause: string := "argument of type 'NoneType' is not iterable"

  const FetchReportPrefix: string := "Error during fetching of report: "

  const StatusPrefix: string := "Unable to fetch single report, status code "

  /** `get_report` after the request, as written: every failure, the non-200
      status, a missing key and a null report alike, reaches the caller as the
      catch-all's `APIException`; it never returns `None`. The non-200
      exception is formatted with `str`, which prints the class default. */
  function FetchReport(response: DetailResponse, load: LoadTimes, lookup: string -> int)
    : (r: Result<ReportState, ApiException>)
    ensures r.Success? <==>
      response.Detail? && response.status == 200 && response.body.ReportAt? && response.body.report.Some?
    ensures r.Success? ==> r.value == Decode(NewReport(load), response.body.report.value, lookup)
    ensures r.Failure? ==>
      |r.error.argument| >= |FetchReportPrefix| && r.error.argument[..|FetchReportPrefix|] == FetchReportPrefix
  {
    match response
    case DetailUnreachable(cause) => Failure(ApiException(FetchReportPrefix + cause))
    case Detail(status, body) =>
      if status != 200 then
        var inner := ApiException(StatusPrefix + IntToString(status));
        Failure(ApiException(FetchReportPrefix + ExceptionStrAsWritten(inner)))
      else
        match body
        case BadEnvelope(cause) => Failure(ApiException(FetchReportPrefix + cause))
        case ReportAt(None) => Failure(ApiException(FetchReportPrefix + NullReportCause))
        case ReportAt(Some(obj)) => Success(Decode(NewReport(load), obj, lookup))
  }

  /** As written, every non-200 status gives the same exception, whatever the
      status and the body: the status code is lost. */
  lemma FetchReportLosesStatus(s1: int, b1: DetailBody, s2: int, b2: DetailBody, load: LoadTimes, lookup: string -> int)
    requires s1 != 200 && s2 != 200
    ensures FetchReport(Detail(s1, b1), load, lookup) == FetchReport(Detail(s2, b2), load, lookup)
    ensures FetchReport(Detail(s1, b1), load, lookup) ==
      Failure(ApiException(FetchReportPrefix + ExceptionPrefix + DefaultMessage))
  {
    assert FetchReportPrefix + (ExceptionPrefix + DefaultMessage) == FetchReportPrefix + ExceptionPrefix + DefaultMessage;
  }

  /** `get_report` as intended: the non-200 exception is formatted with its
      argument; every other outcome is as written. */
  function FetchReportIntended(response: DetailResponse, load: LoadTimes, lookup: string -> int)
    : (r: Result<ReportState, ApiException>)
    ensures r.Success? <==> FetchReport(response, load, lookup).Success?
    ensures !(response.Detail? && response.status != 200) ==> r == FetchReport(response, load, lookup)
    ensures r.Failure? ==>
      |r.error.argument| >= |FetchReportPrefix| && r.error.argument[..|FetchReportPrefix|] == FetchReportPrefix
  {
    if response.Detail? && response.status != 200 then
      var inner := ApiException(StatusPrefix + IntToString(response.status));
      Failure(ApiException(FetchReportPrefix + ExceptionStr(inner)))
    else FetchReport(response, load, lookup)
  }

  /** With the intended text, a non-200 status can be read back from the
      exception's argument. */
  lemma FetchReportIntendedStatusReadBack(response: DetailResponse, load: LoadTimes, lookup: string -> int)
    requires response.Detail? && response.status != 200
    ensures var argument := FetchReportIntended(response, load, lookup).error.argument;
      var n := |FetchReportPrefix| + |ExceptionPrefix| + |StatusPrefix|;
      |argument| > n && ParseInt(argument[n..]) == Some(response.status)
  {
    var argument := FetchReportIntended(response, load, lookup).error.argument;
    var n := |FetchReportPrefix| + |ExceptionPrefix| + |StatusPrefix|;
    assert argument == FetchReportPrefix + ExceptionPrefix + StatusPrefix + IntToString(response.status);
    assert argument[n..] == IntToString(response.status);
    IntToStringRoundTrip(response.status);
  }

  /** The key a listed report is stored under: the `id` its decode gives. */
  function ListingKey(log: ReportPayload): string {
    log.code.GetOr("")
  }

  lemma DecodedIdIsListingKey(load: LoadTimes, log: ReportPayload, lookup: string -> int)
    ensures Decode(NewReport(load), log, lookup).id == ListingKey(log)
  {
    ReportFacts.DecodeKeepsAbsentFields(NewReport(load), log, lookup);
    ReportFacts.DecodeTakesPresentFields(NewReport(load), log, lookup);
  }

  /** The loop of `get_reports`: each listed report, decoded into a new
      `Report`, is stored under its id, in order, over what was there. */
  function MergeListing(m: map<string, ReportState>, logs: seq<ReportPayload>,
                        load: LoadTimes, lookup: string -> int): (r: map<string, ReportState>)
    ensures m.Keys <= r.Keys
    decreases |logs|
  {
    if |logs| == 0 then m
    else
      var r := Decode(NewReport(load), logs[|logs| - 1], lookup);
      MergeListing(m, logs[..|logs| - 1], load, lookup)[r.id := r]
  }

  /** The keys after a listing are the old keys and the listed ids: nothing
      is removed. */
  lemma {:induction false} MergeListingKeys(m: map<string, ReportState>, logs: seq<ReportPayload>,
                                            load: LoadTimes, lookup: string -> int)
    ensures MergeListing(m, logs, load, lookup).Keys ==
      m.Keys + set i | 0 <= i < |logs| :: ListingKey(logs[i])
    decreases |logs|
  {
    if |logs| > 0 {
      var init := logs[..|logs| - 1];
      MergeListingKeys(m, init, load, lookup);
      DecodedIdIsListingKey(load, logs[|logs| - 1], lookup);
      assert forall i :: 0 <= i < |init| ==> init[i] == logs[i];
      var listed := set i | 0 <= i < |logs| :: ListingKey(logs[i]);
      var listedInit := set i | 0 <= i < |init| :: ListingKey(init[i]);
      assert listed == listedInit + {ListingKey(logs[|logs| - 1])};
    }
  }

  /** An id listed more than once holds the report decoded from its last
      occurrence. */
  lemma {:induction false} MergeListingLastWins(m: map<string, ReportState>, logs: seq<ReportPayload>,
                                                load: LoadTimes, lookup: string -> int, i: int)
    requires 0 <= i < |logs|
    requires forall j :: i < j < |logs| ==> ListingKey(logs[j]) != ListingKey(logs[i])
    ensures ListingKey(logs[i]) in MergeListing(m, logs, load, lookup)
    ensures MergeListing(m, logs, load, lookup)[ListingKey(logs[i])] == Decode(NewReport(load), logs[i], lookup)
    decreases |logs|
  {
    var last := logs[|logs| - 1];
    DecodedIdIsListingKey(load, last, lookup);
    if i < |logs| - 1 {
      var init := logs[..|logs| - 1];
      assert init[i] == logs[i];
      MergeListingLastWins(m, init, load, lookup, i);
    }
  }

  /** An entry whose id is not listed is kept as it was. */
  lemma {:induction false} MergeListingKeeps(m: map<string, ReportState>, logs: seq<ReportPayload>,
                                             load: LoadTimes, lookup: string -> int, k: string)
    requires k in m
    requires forall j :: 0 <= j < |logs| ==> ListingKey(logs[j]) != k
    ensures k in MergeListing(m, logs, load, lookup) && MergeListing(m, logs, load, lookup)[k] == m[k]
    decreases |logs|
  {
    if |logs| > 0 {
      DecodedIdIsListingKey(load, logs[|logs| - 1], lookup);
      MergeListingKeeps(m, logs[..|logs| - 1], load, lookup, k);
    }
  }

  /** The client session: credentials, the bearer token, and the reports of
      the listings fetched so far. */
  class ApiManager {
    var token: string
    var userId: string
    var secret: string
    var headers: map<string, string>
    var reports: map<string, Report>
    var authenticated: bool

    /** The stored reports as values. */
    ghost function Listing(): map<string, ReportState>
      reads this, reports.Values
    {
      map k | k in reports :: reports[k].State()
    }

    /** `APIManager()`; the client id and secret come from the environment. */
    constructor(clientId: string, clientSecret: string)
      ensures token == "" && userId == clientId && secret == clientSecret
      ensures headers == map[] && reports == map[] && !authenticated
    {
      token := "";
      userId := clientId;
      secret := clientSecret;
      headers := map[];
      reports := map[];
      authenticated := false;
    }

    /** `auth_user` after the request: a token is stored along with its
        `Authorization` header; a failure changes nothing and is re-raised. */
    method AuthUser(response: AuthResponse) returns (outcome: Outcome)
      modifies this
      ensures response.AuthGranted? ==>
        outcome == Done && token == response.accessToken && authenticated &&
        headers == old(headers)["Authorization" := "Bearer " + response.accessToken]
      ensures response.AuthFailed? ==>
        outcome == Raised(ApiException("Authentication error: " + response.cause)) &&
        token == old(token) && authenticated == old(authenticated) && headers == old(headers)
      ensures reports == old(reports) && userId == old(userId) && secret == old(secret)
    {
      match response
      case AuthFailed(cause) =>
        outcome := Raised(ApiException("Authentication error: " + cause));
      case AuthGranted(accessToken) =>
        token := accessToken;
        headers := headers["Authorization" := "Bearer " + token];
        authenticated := true;
        outcome := Done;
    }

    /** `get_reports` after the request. On status 200 each listed report is
        stored under its id, over the reports already held; any other status
        raises and leaves the reports alone. `load` is the pair of class-level
        readings every report shares: callers pass the same value each time. */
    method GetReports(response: ListingResponse, load: LoadTimes, lookup: string -> int)
      returns (outcome: Outcome)
      modifies this
      ensures token == old(token) && headers == old(headers) && authenticated == old(authenticated)
      ensures userId == old(userId) && secret == old(secret)
      ensures response.ListingUnreachable? ==>
        outcome == Raised(ApiException("Unable to fetch reports, undefined error.")) && reports == old(reports)
      ensures response.Listing? && response.status != 200 ==>
        outcome == Raised(ApiException("Unable to fetch reports, status code " + IntToString(response.status))) &&
        reports == old(reports)
      ensures response.Listing? && response.status == 200 ==>
        outcome == Done &&
        Listing() == MergeListing(old(Listing()), LogsOf(response), load, lookup) &&
        (forall k :: k in old(reports) ==> k in reports) &&
        (forall k :: k in reports ==> (k in old(reports) && reports[k] == old(reports)[k]) || fresh(reports[k]))
    {
      match response
      case ListingUnreachable =>
        outcome := Raised(ApiException("Unable to fetch reports, undefined error."));
      case Listing(status, data) =>
        if status != 200 {
          outcome := Raised(ApiException("Unable to fetch reports, status code " + IntToString(status)));
          return;
        }
        var logs := LogsOf(response);
        var i := 0;
        while i < |logs|
          invariant 0 <= i <= |logs|
          invariant token == old(token) && headers == old(headers) && authenticated == old(authenticated)
          invariant userId == old(userId) && secret == old(secret)
          invariant Listing() == MergeListing(old(Listing()), logs[..i], load, lookup)
          invariant forall k :: k in old(reports) ==> k in reports
          invariant forall k :: k in reports ==> (k in old(reports) && reports[k] == old(reports)[k]) || fresh(reports[k])
        {
          ghost var merged := Listing();
          StoreReport(logs[i], load, lookup);
          ghost var r := Decode(NewReport(load), logs[i], lookup);
          assert Listing() == merged[r.id := r];
          assert logs[..i + 1][..i] == logs[..i];
          assert MergeListing(old(Listing()), logs[..i + 1], load, lookup) ==
            MergeListing(old(Listing()), logs[..i], load, lookup)[r.id := r];
          i := i + 1;
        }
        assert logs[..i] == logs;
        outcome := Done;
    }

    /** One turn of the `get_reports` loop: a new report, decoded from `log`,
        stored under its id. */
    method StoreReport(log: ReportPayload, load: LoadTimes, lookup: string -> int)
      modifies this
      ensures token == old(token) && headers == old(headers) && authenticated == old(authenticated)
      ensures userId == old(userId) && secret == old(secret)
      ensures var r := Decode(NewReport(load), log, lookup); Listing() == old(Listing())[r.id := r]
      ensures forall k :: k in old(reports) ==> k in reports
      ensures forall k :: k in reports ==> (k in old(reports) && reports[k] == old(reports)[k]) || fresh(reports[k])
    {
      ghost var before := Listing();
      var r := new Report(load);
      r.FromApiObject(log, lookup);
      assert Listing() == before;
      reports := reports[r.id := r];
      forall k | k in reports
        ensures reports[k].State() == before[r.id := r.State()][k]
      {
        if k != r.id {
          assert reports[k] == old(reports)[k];
        }
      }
      assert Listing() == before[r.id := r.State()];
    }

    /** `get_report` after the request: a new report decoded from the payload,
        or the exception that reaches the caller. `load` is the same shared
        pair of readings that `GetReports` receives. */
    method GetReport(response: DetailResponse, load: LoadTimes, lookup: string -> int)
      returns (result: Result<Report, ApiException>)
      ensures result.Success? <==> FetchReport(response, load, lookup).Success?
      ensures result.Success? ==>
        fresh(result.value) && result.value.State() == FetchReport(response, load, lookup).value
      ensures result.Failure? ==> result.error == FetchReport(response, load, lookup).error
    {
      match response
      case DetailUnreachable(cause) =>
        result := Failure(ApiException(FetchReportPrefix + cause));
      case Detail(status, body) =>
        if status != 200 {
          var inner := ApiException(StatusPrefix + IntToString(status));
          result := Failure(ApiException(FetchReportPrefix + ExceptionStrAsWritten(inner)));
          return;
        }
        match body
        case BadEnvelope(cause) =>
          result := Failure(ApiException(FetchReportPrefix + cause));
        case ReportAt(None) =>
          result := Failure(ApiException(FetchReportPrefix + NullReportCause));
        case ReportAt(Some(obj)) =>
          var r := new Report(load);
          r.FromApiObject(obj, lookup);
          result := Success(r);
    }
  }

  /** The list `get_reports` walks: empty when the path to it is missing. */
  function LogsOf(response: ListingResponse): seq<ReportPayload>
    requires response.Listing?
  {
    match response.data
    case None => []
    case Some(logs) => logs
  }
}
