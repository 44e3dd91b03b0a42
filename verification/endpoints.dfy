/** The request side of the API client: the URL lists that
    `get_weekly_schedules` and `get_game_info` build, and the
    `filter(None, results)` that `_get_endpoints_async` applies to the fetch
    outcomes. The HTTP fetch itself is a parameter: a function from URL to
    the decoded body, or None for a response that was not OK. */
module Endpoints {
  import opened Wrappers
  import opened Digits
  import opened Calendar
  import opened DateText
  import opened WeekWindow

  const ApiBase: string := "https://api-web.nhle.com/v1"
  const SchedulePrefix: string := ApiBase + "/schedule/"
  const ScheduleNowUrl: string := ApiBase + "/schedule/now"
  const GameCenterPrefix: string := ApiBase + "/gamecenter/"
  const LandingSuffix: string := "/landing"

  /** A decoded JSON body. Numbers are integers here. */
  datatype Json =
    | JNull
    | JBool(b: bool)
    | JNumber(n: int)
    | JString(s: string)
    | JArray(items: seq<Json>)
    | JObject(members: seq<(string, Json)>)

  /** Python truthiness of a decoded body: `None`, `False`, `0`, `""`, `[]`
      and `{}` are falsy. */
  predicate Truthy(j: Json) {
    match j
    case JNull => false
    case JBool(b) => b
    case JNumber(n) => n != 0
    case JString(s) => s != ""
    case JArray(items) => items != []
    case JObject(members) => members != []
  }

  /** `filter(None, results)`: the bodies that are present and truthy, in the
      order `asyncio.gather` returned them (the order of the requests). */
  function KeepTruthy(outcomes: seq<Option<Json>>): (kept: seq<Json>)
    ensures |kept| <= |outcomes|
    ensures forall j :: j in kept <==> Some(j) in outcomes && Truthy(j)
  {
    if outcomes == [] then []
    else
      assert outcomes == [outcomes[0]] + outcomes[1..];
      var rest := KeepTruthy(outcomes[1..]);
      if outcomes[0].Some? && Truthy(outcomes[0].value) then [outcomes[0].value] + rest else rest
  }

  /** The number of outcomes the filter keeps. */
  function CountTruthy(outcomes: seq<Option<Json>>): nat {
    if outcomes == [] then 0
    else (if outcomes[0].Some? && Truthy(outcomes[0].value) then 1 else 0) + CountTruthy(outcomes[1..])
  }

  /** The filter works piecewise: it keeps the order of its input. */
  lemma {:induction false} KeepTruthyAppend(a: seq<Option<Json>>, b: seq<Option<Json>>)
    ensures KeepTruthy(a + b) == KeepTruthy(a) + KeepTruthy(b)
    decreases |a|
  {
    if a != [] {
      var head := if a[0].Some? && Truthy(a[0].value) then [a[0].value] else [];
      assert (a + b)[0] == a[0] && (a + b)[1..] == a[1..] + b;
      assert KeepTruthy(a + b) == head + KeepTruthy(a[1..] + b);
      assert KeepTruthy(a) == head + KeepTruthy(a[1..]);
      KeepTruthyAppend(a[1..], b);
    } else {
      assert a + b == b;
    }
  }

  /** The filter keeps exactly one body per present, truthy outcome. */
  lemma {:induction false} KeepTruthyCount(outcomes: seq<Option<Json>>)
    ensures |KeepTruthy(outcomes)| == CountTruthy(outcomes)
  {
    if outcomes != [] {
      KeepTruthyCount(outcomes[1..]);
    }
  }

  /** When every request came back with a non-empty body, nothing is dropped
      and the order is the request order. */
  lemma {:induction false} KeepTruthyAllPresent(outcomes: seq<Option<Json>>)
    requires forall i :: 0 <= i < |outcomes| ==> outcomes[i].Some? && Truthy(outcomes[i].value)
    ensures |KeepTruthy(outcomes)| == |outcomes|
    ensures forall i :: 0 <= i < |outcomes| ==> KeepTruthy(outcomes)[i] == outcomes[i].value
  {
    if outcomes != [] {
      KeepTruthyAllPresent(outcomes[1..]);
    }
  }

  /** A batch in which one request of N fails (say with HTTP 404) and the rest
      return bodies yields exactly the N-1 other bodies, with no error. */
  lemma KeepTruthyOneMissing(outcomes: seq<Option<Json>>, k: int)
    requires 0 <= k < |outcomes| && outcomes[k].None?
    requires forall i :: 0 <= i < |outcomes| && i != k ==> outcomes[i].Some? && Truthy(outcomes[i].value)
    ensures |KeepTruthy(outcomes)| == |outcomes| - 1
  {
    KeepTruthyCount(outcomes);
    CountOneMissing(outcomes, k);
  }

  /** The count of survivors when exactly the k-th outcome is missing. */
  lemma {:induction false} CountOneMissing(outcomes: seq<Option<Json>>, k: int)
    requires 0 <= k < |outcomes| && outcomes[k].None?
    requires forall i :: 0 <= i < |outcomes| && i != k ==> outcomes[i].Some? && Truthy(outcomes[i].value)
    ensures CountTruthy(outcomes) == |outcomes| - 1
    decreases k
  {
    if k == 0 {
      CountAllPresent(outcomes[1..]);
    } else {
      CountOneMissing(outcomes[1..], k - 1);
    }
  }

  /** The count of survivors when no outcome is missing or falsy. */
  lemma {:induction false} CountAllPresent(outcomes: seq<Option<Json>>)
    requires forall i :: 0 <= i < |outcomes| ==> outcomes[i].Some? && Truthy(outcomes[i].value)
    ensures CountTruthy(outcomes) == |outcomes|
  {
    if outcomes != [] {
      CountAllPresent(outcomes[1..]);
    }
  }

  /** `_get_endpoints_async`: fetch every URL and keep the truthy bodies. */
  function FetchAll(urls: seq<string>, fetch: string -> Option<Json>): (docs: seq<Json>)
    ensures |docs| <= |urls|
    ensures forall j :: j in docs <==> Truthy(j) && exists i :: 0 <= i < |urls| && fetch(urls[i]) == Some(j)
  {
    var outcomes := seq(|urls|, i requires 0 <= i < |urls| => fetch(urls[i]));
    FetchedMembers(urls, fetch, outcomes);
    KeepTruthy(outcomes)
  }

  lemma FetchedMembers(urls: seq<string>, fetch: string -> Option<Json>, outcomes: seq<Option<Json>>)
    requires |outcomes| == |urls| && forall i :: 0 <= i < |urls| ==> outcomes[i] == fetch(urls[i])
    ensures forall j :: Some(j) in outcomes <==> exists i :: 0 <= i < |urls| && fetch(urls[i]) == Some(j)
  {
    forall j | Some(j) in outcomes
      ensures exists i :: 0 <= i < |urls| && fetch(urls[i]) == Some(j)
    {
      var k :| 0 <= k < |outcomes| && outcomes[k] == Some(j);
      assert fetch(urls[k]) == Some(j);
    }
  }

  /** The fetch filters the outcomes of the URLs, taken in order. */
  lemma FetchAllOutcomes(urls: seq<string>, fetch: string -> Option<Json>, outcomes: seq<Option<Json>>)
    requires |outcomes| == |urls| && forall i :: 0 <= i < |urls| ==> outcomes[i] == fetch(urls[i])
    ensures FetchAll(urls, fetch) == KeepTruthy(outcomes)
  {
    assert seq(|urls|, i requires 0 <= i < |urls| => fetch(urls[i])) == outcomes;
  }

  // ---------------------------------------------------------------------
  // Weekly schedules

  /** The URLs `get_weekly_schedules` requests. No start date means the
      current week (`/schedule/now`); otherwise both dates are normalised (a
      missing end date is the start date) and there is one URL per weekly
      anchor. A malformed date is an error. */
  function ScheduleUrls(dateFrom: string, dateTo: string): (r: Result<seq<string>, DateError>)
    ensures dateFrom == "" ==> r == Success([ScheduleNowUrl])
    ensures dateFrom != "" && Parse(dateFrom).Failure? ==> r == Failure(Parse(dateFrom).error)
    ensures r.Success? ==> 1 <= |r.value|
  {
    if dateFrom == "" then Success([ScheduleNowUrl])
    else
      var from :- Normalize(dateFrom);
      var to :- if dateTo == "" then Success(from) else Normalize(dateTo);
      var starts :- WeekStartDates(from, to);
      WeekStartDatesLength(from, to);
      Success(seq(|starts|, i requires 0 <= i < |starts| => SchedulePrefix + starts[i]))
  }

  lemma WeekStartDatesLength(dateFrom: string, dateTo: string)
    requires Parse(dateFrom).Success? && Parse(dateTo).Success?
    ensures 1 <= |WeekStartDates(dateFrom, dateTo).value|
  {
    WeekStartDatesFormats(dateFrom, dateTo);
  }

  /** With a start date, the schedule URLs are the anchors in order: URL i is
      the schedule prefix followed by the canonical spelling of the date 7*i
      days after the start, and the request succeeds exactly when both dates
      parse. */
  lemma ScheduleUrlsMeaning(dateFrom: string, dateTo: string)
    requires dateFrom != ""
    ensures ScheduleUrls(dateFrom, dateTo).Success?
        <==> Parse(dateFrom).Success? && (dateTo == "" || Parse(dateTo).Success?)
    ensures ScheduleUrls(dateFrom, dateTo).Success? ==>
      var from := Parse(dateFrom).value;
      var to := if dateTo == "" then from else Parse(dateTo).value;
      var urls := ScheduleUrls(dateFrom, dateTo).value;
      && |urls| == (if DaysBetween(from, to) > 0 then DaysBetween(from, to) / 7 + 1 else 1)
      && forall i :: 0 <= i < |urls| ==>
           && |urls[i]| == |SchedulePrefix| + 10
           && urls[i][..|SchedulePrefix|] == SchedulePrefix
           && IsCanonical(urls[i][|SchedulePrefix|..])
           && Parse(urls[i][|SchedulePrefix|..]).Success?
           && DayNumber(Parse(urls[i][|SchedulePrefix|..]).value) == DayNumber(from) + 7 * i
  {
    if Normalize(dateFrom).Success? && (dateTo == "" || Normalize(dateTo).Success?) {
      NormalizeSameDate(dateFrom);
      var nf := Normalize(dateFrom).value;
      var nt := if dateTo == "" then nf else Normalize(dateTo).value;
      if dateTo != "" {
        NormalizeSameDate(dateTo);
      }
      WeekStartDatesMeaning(nf, nt);
      var starts := WeekStartDates(nf, nt).value;
      var urls := ScheduleUrls(dateFrom, dateTo).value;
      forall i | 0 <= i < |urls|
        ensures urls[i][..|SchedulePrefix|] == SchedulePrefix
        ensures urls[i][|SchedulePrefix|..] == starts[i]
      {
        assert urls[i] == SchedulePrefix + starts[i];
      }
    }
  }

  /** A missing end date gives one URL, for the normalised start date. */
  lemma ScheduleUrlsNoEnd(dateFrom: string)
    requires dateFrom != "" && Parse(dateFrom).Success?
    ensures ScheduleUrls(dateFrom, "") == Success([SchedulePrefix + Normalize(dateFrom).value])
  {
    var nf := Normalize(dateFrom).value;
    NormalizeSameDate(dateFrom);
    WeekStartDatesSingle(nf, nf);
    NormalizeSameDate(dateFrom);
    var urls := ScheduleUrls(dateFrom, "").value;
    assert |urls| == 1 && urls[0] == SchedulePrefix + Format(Parse(nf).value);
    assert urls == [SchedulePrefix + nf];
  }

  /** `get_weekly_schedules` with the fetch as a parameter. */
  function WeeklySchedules(dateFrom: string, dateTo: string, fetch: string -> Option<Json>)
    : (r: Result<seq<Json>, DateError>)
    ensures r.Success? <==> ScheduleUrls(dateFrom, dateTo).Success?
    ensures r.Success? ==> forall j :: j in r.value <==>
      Truthy(j) && exists u :: u in ScheduleUrls(dateFrom, dateTo).value && fetch(u) == Some(j)
  {
    var urls :- ScheduleUrls(dateFrom, dateTo);
    var docs := FetchAll(urls, fetch);
    assert forall j :: (exists u :: u in urls && fetch(u) == Some(j)) <==>
      (exists i :: 0 <= i < |urls| && fetch(urls[i]) == Some(j));
    Success(docs)
  }

  // ---------------------------------------------------------------------
  // Game information

  /** The argument of `get_game_info`: one game id or a list of them. */
  datatype GameIds = OneGame(id: int) | GameList(ids: seq<int>)

  /** `isinstance(game_ids, int)`: a single id is a one-element list. */
  function IdList(g: GameIds): (ids: seq<int>)
    ensures g.OneGame? ==> ids == [g.id]
    ensures g.GameList? ==> ids == g.ids
  {
    match g
    case OneGame(id) => [id]
    case GameList(ids) => ids
  }

  function GameInfoUrl(id: int): string {
    GameCenterPrefix + IntText(id) + LandingSuffix
  }

  /** The URLs `get_game_info` requests: one per id, in order, duplicates kept. */
  function GameInfoUrls(g: GameIds): (urls: seq<string>)
    ensures |urls| == |IdList(g)|
  {
    var ids := IdList(g);
    seq(|ids|, i requires 0 <= i < |ids| => GameInfoUrl(ids[i]))
  }

  /** Reads the game id back out of a game-center URL. */
  function GameIdOfUrl(url: string): Option<int> {
    if |url| >= |GameCenterPrefix| + |LandingSuffix|
       && url[..|GameCenterPrefix|] == GameCenterPrefix
       && url[|url| - |LandingSuffix|..] == LandingSuffix
    then ParseIntText(url[|GameCenterPrefix|..|url| - |LandingSuffix|])
    else None
  }

  lemma GameIdOfGameInfoUrl(id: int)
    ensures GameIdOfUrl(GameInfoUrl(id)) == Some(id)
  {
    var url := GameInfoUrl(id);
    var t := IntText(id);
    assert url[..|GameCenterPrefix|] == GameCenterPrefix;
    assert url[|url| - |LandingSuffix|..] == LandingSuffix;
    assert url[|GameCenterPrefix|..|url| - |LandingSuffix|] == t;
    IntTextRoundTrip(id);
  }

  /** URL i names game i: each URL carries its id, so two URLs are equal
      exactly when their ids are (a repeated id is requested twice). */
  lemma GameInfoUrlsMeaning(g: GameIds)
    ensures var urls, ids := GameInfoUrls(g), IdList(g);
      && (forall i :: 0 <= i < |urls| ==> GameIdOfUrl(urls[i]) == Some(ids[i]))
      && (forall i, k :: 0 <= i < |urls| && 0 <= k < |urls| ==> (urls[i] == urls[k] <==> ids[i] == ids[k]))
  {
    var urls, ids := GameInfoUrls(g), IdList(g);
    forall i | 0 <= i < |urls| ensures GameIdOfUrl(urls[i]) == Some(ids[i]) {
      GameIdOfGameInfoUrl(ids[i]);
    }
  }

  /** `get_game_info` with the fetch as a parameter. */
  function GameInfo(g: GameIds, fetch: string -> Option<Json>): (docs: seq<Json>)
    ensures |docs| <= |IdList(g)|
    ensures forall j :: j in docs <==>
      Truthy(j) && exists i :: 0 <= i < |IdList(g)| && fetch(GameInfoUrl(IdList(g)[i])) == Some(j)
  {
    assert forall i :: 0 <= i < |IdList(g)| ==> GameInfoUrls(g)[i] == GameInfoUrl(IdList(g)[i]);
    FetchAll(GameInfoUrls(g), fetch)
  }

  /** A single id is requested exactly as the one-element list of that id. */
  lemma GameInfoUrlsOne(id: int)
    ensures GameInfoUrls(OneGame(id)) == GameInfoUrls(GameList([id]))
    ensures GameInfoUrls(OneGame(id)) == [GameInfoUrl(id)]
  {
  }

  /** A single game gives its one document, or nothing when the response was
      not OK or its body is falsy. */
  lemma GameInfoOne(id: int, fetch: string -> Option<Json>)
    ensures var body := fetch(GameInfoUrl(id));
      GameInfo(OneGame(id), fetch) == if body.Some? && Truthy(body.value) then [body.value] else []
  {
    var outcomes := [fetch(GameInfoUrl(id))];
    GameInfoUrlsOne(id);
    FetchAllOutcomes(GameInfoUrls(OneGame(id)), fetch, outcomes);
    assert outcomes[1..] == [];
  }
}
