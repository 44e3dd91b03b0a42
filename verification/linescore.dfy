/** `goals_from_linescores`: the goals of the finished games of a linescore
    document, one `Goal` record per goal entry.

    The JSON document is modelled with one Option per key the code reads: None
    is a missing key. The one `KeyError` the code catches (a game without
    `goals`) is a soft skip; every other missing key, and a date or clock that
    does not parse, is an error that ends the whole call. */
module Linescore {
  import opened Wrappers
  import opened Calendar
  import opened DateText
  import opened ClockText

  datatype TeamRef = TeamRef(abbrev: Option<string>)

  /** The `name` object of a goal entry; `default` is the display name. */
  datatype PlayerName = PlayerName(defaultName: Option<string>)

  datatype GoalEntry = GoalEntry(
    period: Option<int>,
    timeInPeriod: Option<string>,
    name: Option<PlayerName>,
    teamAbbrev: Option<string>,
    homeScore: Option<int>,
    awayScore: Option<int>,
    strength: Option<string>)

  datatype Game = Game(
    id: Option<int>,
    season: Option<int>,
    gameDate: Option<string>,
    gameState: Option<string>,
    awayTeam: Option<TeamRef>,
    homeTeam: Option<TeamRef>,
    goals: Option<seq<GoalEntry>>)

  datatype LinescoreDoc = LinescoreDoc(games: Option<seq<Game>>)

  /** The `Goal` dataclass. */
  datatype Goal = Goal(
    season: int,
    gameId: int,
    gameDate: Date,
    period: int,
    timeInPeriod: Time,
    playerName: string,
    playerTeam: string,
    homeTeam: string,
    awayTeam: string,
    homeScore: int,
    awayScore: int,
    strength: string)

  /** What the call raises: a `KeyError` for a key, or the `ValueError` of a
      date or clock that does not parse. */
  datatype ExtractError =
    | MissingKey(key: string)
    | BadGameDate(dateError: DateError)
    | BadClock(text: string)

  const Finished: string := "OFF"

  /** `obj[key]` for a key that must be there. */
  function Lookup<T>(o: Option<T>, key: string): (r: Result<T, ExtractError>)
    ensures r.Success? <==> o.Some?
    ensures r.Success? ==> o == Some(r.value)
    ensures r.Failure? ==> r.error == MissingKey(key)
  {
    match o
    case Some(v) => Success(v)
    case None => Failure(MissingKey(key))
  }

  /** The game-level fields every goal of a game repeats. */
  datatype GameHeader = GameHeader(
    gameId: int, season: int, gameDate: Date, homeTeam: string, awayTeam: string)

  /** Reads `id`, `season`, `gameDate`, `awayTeam.abbrev` and
      `homeTeam.abbrev`, in that order, before `goals` is looked at. */
  function ReadHeader(g: Game): Result<GameHeader, ExtractError> {
    var id :- Lookup(g.id, "id");
    var season :- Lookup(g.season, "season");
    var dateText :- Lookup(g.gameDate, "gameDate");
    var date :- match Parse(dateText)
      case Success(d) => Success(d)
      case Failure(e) => Failure(BadGameDate(e));
    var away :- Lookup(g.awayTeam, "awayTeam");
    var awayAbbrev :- Lookup(away.abbrev, "abbrev");
    var home :- Lookup(g.homeTeam, "homeTeam");
    var homeAbbrev :- Lookup(home.abbrev, "abbrev");
    Success(GameHeader(id, season, date, homeAbbrev, awayAbbrev))
  }

  /** One `Goal(...)` call: its keyword arguments are read in the order
      period, timeInPeriod, name.default, teamAbbrev, homeScore, awayScore,
      strength. */
  function EntryGoal(h: GameHeader, e: GoalEntry): Result<Goal, ExtractError> {
    var period :- Lookup(e.period, "period");
    var clockText :- Lookup(e.timeInPeriod, "timeInPeriod");
    var clock :- match ParseClock(clockText)
      case Success(t) => Success(t)
      case Failure(text) => Failure(BadClock(text));
    var name :- Lookup(e.name, "name");
    var player :- Lookup(name.defaultName, "default");
    var team :- Lookup(e.teamAbbrev, "teamAbbrev");
    var homeScore :- Lookup(e.homeScore, "homeScore");
    var awayScore :- Lookup(e.awayScore, "awayScore");
    var strength :- Lookup(e.strength, "strength");
    Success(Goal(h.season, h.gameId, h.gameDate, period, clock, player, team,
                 h.homeTeam, h.awayTeam, homeScore, awayScore, strength))
  }

  /** The inner `for goal in game_goals` loop. */
  function EntriesGoals(h: GameHeader, entries: seq<GoalEntry>): (r: Result<seq<Goal>, ExtractError>)
    ensures r.Success? ==> |r.value| == |entries|
  {
    if entries == [] then Success([])
    else
      var first :- EntryGoal(h, entries[0]);
      var rest :- EntriesGoals(h, entries[1..]);
      Success([first] + rest)
  }

  /** The body of the outer loop for one game. */
  function GameGoals(g: Game): Result<seq<Goal>, ExtractError> {
    var state :- Lookup(g.gameState, "gameState");
    if state != Finished then Success([])
    else
      var h :- ReadHeader(g);
      match g.goals
      case None => Success([])
      case Some(entries) => EntriesGoals(h, entries)
  }

  /** The outer `for game in linescores["games"]` loop. */
  function GamesGoals(games: seq<Game>): Result<seq<Goal>, ExtractError> {
    if games == [] then Success([])
    else
      var first :- GameGoals(games[0]);
      var rest :- GamesGoals(games[1..]);
      Success(first + rest)
  }

  /** `goals_from_linescores`. */
  function GoalsFromLinescores(doc: LinescoreDoc): (r: Result<seq<Goal>, ExtractError>)
    ensures doc.games.None? ==> r == Failure(MissingKey("games"))
  {
    var games :- Lookup(doc.games, "games");
    GamesGoals(games)
  }

  // ---------------------------------------------------------------------
  // Reference description of the result

  /** A game contributes goals when it is finished and has a `goals` key. */
  predicate Contributes(g: Game) {
    g.gameState == Some(Finished) && g.goals.Some?
  }

  /** The goal entries the result is made from, each with its game: the
      entries of contributing games, in game order and then entry order. */
  function Contributions(games: seq<Game>): seq<(Game, GoalEntry)> {
    if games == [] then []
    else
      var g := games[0];
      OwnContributions(g) + Contributions(games[1..])
  }

  /** The entries of one game, paired with it, when the game contributes. */
  function OwnContributions(g: Game): (own: seq<(Game, GoalEntry)>)
    ensures |own| == if Contributes(g) then |g.goals.value| else 0
  {
    if Contributes(g) then seq(|g.goals.value|, i requires 0 <= i < |g.goals.value| => (g, g.goals.value[i])) else []
  }

  /** The number of goal entries over the contributing games. */
  function EntryCount(games: seq<Game>): nat {
    if games == [] then 0
    else (if Contributes(games[0]) then |games[0].goals.value| else 0) + EntryCount(games[1..])
  }

  /** `goal` carries the game-level fields of `g` and the entry-level fields of `e`. */
  ghost predicate Describes(goal: Goal, g: Game, e: GoalEntry) {
    // from the enclosing game
    && g.season == Some(goal.season)
    && g.id == Some(goal.gameId)
    && g.gameDate.Some? && Parse(g.gameDate.value) == Success(goal.gameDate)
    && g.homeTeam.Some? && g.homeTeam.value.abbrev == Some(goal.homeTeam)
    && g.awayTeam.Some? && g.awayTeam.value.abbrev == Some(goal.awayTeam)
    // from the goal entry
    && e.period == Some(goal.period)
    && e.timeInPeriod.Some?
    && goal.timeInPeriod.hour == 0
    && SpellsClock(e.timeInPeriod.value, goal.timeInPeriod.minute, goal.timeInPeriod.second)
    && e.name.Some? && e.name.value.defaultName == Some(goal.playerName)
    && e.teamAbbrev == Some(goal.playerTeam)
    && e.homeScore == Some(goal.homeScore)
    && e.awayScore == Some(goal.awayScore)
    && e.strength == Some(goal.strength)
  }

  /** A goal entry the code can turn into a `Goal` without raising. */
  predicate EntryComplete(e: GoalEntry) {
    && e.period.Some?
    && e.timeInPeriod.Some? && ParseClock(e.timeInPeriod.value).Success?
    && e.name.Some? && e.name.value.defaultName.Some?
    && e.teamAbbrev.Some? && e.homeScore.Some? && e.awayScore.Some? && e.strength.Some?
  }

  /** A game the code gets through without raising: it has a state, and if it
      is finished its header fields are present and its date parses, and
      every goal entry it has is complete. */
  predicate GameReadable(g: Game) {
    && g.gameState.Some?
    && (g.gameState.value == Finished ==>
          && g.id.Some? && g.season.Some?
          && g.gameDate.Some? && Parse(g.gameDate.value).Success?
          && g.awayTeam.Some? && g.awayTeam.value.abbrev.Some?
          && g.homeTeam.Some? && g.homeTeam.value.abbrev.Some?
          && (g.goals.Some? ==> forall i :: 0 <= i < |g.goals.value| ==> EntryComplete(g.goals.value[i])))
  }

  // ---------------------------------------------------------------------
  // Properties

  lemma EntryGoalMeaning(g: Game, h: GameHeader, e: GoalEntry)
    requires ReadHeader(g) == Success(h)
    ensures EntryGoal(h, e).Success? <==> EntryComplete(e)
    ensures EntryGoal(h, e).Success? ==> Describes(EntryGoal(h, e).value, g, e)
  {
    if EntryGoal(h, e).Success? {
      var goal := EntryGoal(h, e).value;
      ParseClockMeaning(e.timeInPeriod.value, goal.timeInPeriod.minute, goal.timeInPeriod.second);
    }
  }

  lemma {:induction false} EntriesGoalsMeaning(g: Game, h: GameHeader, entries: seq<GoalEntry>)
    requires ReadHeader(g) == Success(h)
    ensures EntriesGoals(h, entries).Success? <==> forall i :: 0 <= i < |entries| ==> EntryComplete(entries[i])
    ensures EntriesGoals(h, entries).Success? ==>
      forall i :: 0 <= i < |entries| ==> Describes(EntriesGoals(h, entries).value[i], g, entries[i])
    decreases |entries|
  {
    if entries != [] {
      var tail := entries[1..];
      EntryGoalMeaning(g, h, entries[0]);
      EntriesGoalsMeaning(g, h, tail);
      assert forall i :: 1 <= i < |entries| ==> entries[i] == tail[i - 1];
      if EntriesGoals(h, entries).Success? {
        var first, rest := EntryGoal(h, entries[0]).value, EntriesGoals(h, tail).value;
        var r := EntriesGoals(h, entries).value;
        assert r == [first] + rest;
        forall i | 0 <= i < |entries| ensures Describes(r[i], g, entries[i]) {
          if i > 0 {
            assert r[i] == rest[i - 1];
          }
        }
      }
    }
  }

  lemma GameGoalsMeaning(g: Game)
    ensures GameGoals(g).Success? <==> GameReadable(g)
    ensures GameGoals(g).Success? ==>
      var r, own := GameGoals(g).value, Contributions([g]);
      |r| == |own| && forall i :: 0 <= i < |r| ==> Describes(r[i], own[i].0, own[i].1)
  {
    if g.gameState == Some(Finished) && ReadHeader(g).Success? {
      var h := ReadHeader(g).value;
      if g.goals.Some? {
        EntriesGoalsMeaning(g, h, g.goals.value);
      }
      assert Contributions([g]) == OwnContributions(g) + Contributions([]);
    }
  }

  /** The call succeeds exactly when every game is readable: a game that is
      not finished never fails, whatever keys it lacks. */
  lemma {:induction false} GamesGoalsSucceeds(games: seq<Game>)
    ensures GamesGoals(games).Success? <==> forall i :: 0 <= i < |games| ==> GameReadable(games[i])
  {
    if games != [] {
      GameGoalsMeaning(games[0]);
      GamesGoalsSucceeds(games[1..]);
      assert forall i :: 1 <= i < |games| ==> games[i] == games[1..][i - 1];
    }
  }

  /** On success the result has one `Goal` per goal entry of the finished
      games, in game order and then entry order, and each goal carries its
      game's fields and its entry's fields. */
  lemma {:induction false} GamesGoalsProvenance(games: seq<Game>)
    requires GamesGoals(games).Success?
    ensures var r, src := GamesGoals(games).value, Contributions(games);
      && |r| == |src| == EntryCount(games)
      && forall k :: 0 <= k < |r| ==> Describes(r[k], src[k].0, src[k].1)
  {
    if games != [] {
      var g := games[0];
      var first, later := GameGoals(g).value, GamesGoals(games[1..]).value;
      var own, rest := Contributions([g]), Contributions(games[1..]);
      ProvenanceStep(games);
      GameGoalsMeaning(g);
      GamesGoalsProvenance(games[1..]);
      DescribesConcat(first, later, own, rest);
    }
  }

  /** One turn of the outer loop: the result, the goal sources and their count
      each split into the first game's part and the rest. */
  lemma ProvenanceStep(games: seq<Game>)
    requires games != [] && GamesGoals(games).Success?
    ensures GameGoals(games[0]).Success? && GamesGoals(games[1..]).Success?
    ensures GamesGoals(games).value == GameGoals(games[0]).value + GamesGoals(games[1..]).value
    ensures Contributions(games) == Contributions([games[0]]) + Contributions(games[1..])
    ensures EntryCount(games) == |Contributions([games[0]])| + EntryCount(games[1..])
  {
    var g := games[0];
    var own := OwnContributions(g);
    assert Contributions([g]) == own by {
      assert [g][1..] == [];
      assert Contributions([g]) == own + Contributions([]);
    }
    assert Contributions(games) == own + Contributions(games[1..]);
  }

  lemma DescribesConcat(first: seq<Goal>, later: seq<Goal>, own: seq<(Game, GoalEntry)>, rest: seq<(Game, GoalEntry)>)
    requires |first| == |own| && forall k :: 0 <= k < |first| ==> Describes(first[k], own[k].0, own[k].1)
    requires |later| == |rest| && forall k :: 0 <= k < |later| ==> Describes(later[k], rest[k].0, rest[k].1)
    ensures var r, src := first + later, own + rest;
      forall k :: 0 <= k < |r| ==> Describes(r[k], src[k].0, src[k].1)
  {
  }

  /** Every contribution comes from a finished game of the input and is one
      of that game's goal entries. */
  lemma {:induction false} ContributionsFromFinishedGames(games: seq<Game>)
    ensures forall k :: 0 <= k < |Contributions(games)| ==>
      var (g, e) := Contributions(games)[k];
      g in games && g.gameState == Some(Finished) && g.goals.Some? && e in g.goals.value
  {
    if games != [] {
      ContributionsFromFinishedGames(games[1..]);
    }
  }

  /** `goals_from_linescores` as a whole: with a `games` list it succeeds
      exactly when every game is readable, and then returns one `Goal` per
      goal entry of the finished games, in order, each describing its game
      and entry. */
  lemma GoalsFromLinescoresMeaning(doc: LinescoreDoc)
    requires doc.games.Some?
    ensures GoalsFromLinescores(doc).Success? <==>
      forall i :: 0 <= i < |doc.games.value| ==> GameReadable(doc.games.value[i])
    ensures GoalsFromLinescores(doc).Success? ==>
      var r, src := GoalsFromLinescores(doc).value, Contributions(doc.games.value);
      && |r| == |src| == EntryCount(doc.games.value)
      && forall k :: 0 <= k < |r| ==> Describes(r[k], src[k].0, src[k].1)
  {
    var games := doc.games.value;
    assert GoalsFromLinescores(doc) == GamesGoals(games);
    GamesGoalsSucceeds(games);
    if GamesGoals(games).Success? {
      GamesGoalsProvenance(games);
    }
  }

  /** The loop over games distributes over concatenation of the game list;
      the first failure wins. */
  lemma {:induction false} GamesGoalsAppend(a: seq<Game>, b: seq<Game>)
    ensures GamesGoals(a + b) ==
      if GamesGoals(a).Failure? then GamesGoals(a)
      else if GamesGoals(b).Failure? then GamesGoals(b)
      else Success(GamesGoals(a).value + GamesGoals(b).value)
    decreases |a|
  {
    if a == [] {
      assert a + b == b;
      if GamesGoals(b).Success? {
        assert [] + GamesGoals(b).value == GamesGoals(b).value;
      }
    } else {
      assert (a + b)[0] == a[0];
      assert (a + b)[1..] == a[1..] + b;
      GamesGoalsAppend(a[1..], b);
      var head := GameGoals(a[0]);
      if head.Success? && GamesGoals(a[1..]).Success? && GamesGoals(b).Success? {
        var ra, rb := GamesGoals(a[1..]).value, GamesGoals(b).value;
        assert head.value + (ra + rb) == (head.value + ra) + rb;
      }
    }
  }

  lemma SingleGame(g: Game)
    ensures GamesGoals([g]) == GameGoals(g)
  {
    assert [g][0] == g && [g][1..] == [];
    if GameGoals(g).Success? {
      assert GameGoals(g).value + [] == GameGoals(g).value;
    }
  }

  /** Appending a game that yields no goals leaves the result unchanged. */
  lemma SkippedGameNeutral(a: seq<Game>, g: Game)
    requires GameGoals(g) == Success([])
    ensures GamesGoals(a + [g]) == GamesGoals(a)
  {
    GamesGoalsAppend(a, [g]);
    SingleGame(g);
    if GamesGoals(a).Success? {
      assert GamesGoals(a).value + [] == GamesGoals(a).value;
    }
  }

  /** A game that is not finished is skipped before any other field is read:
      adding it anywhere changes nothing, even when it lacks every other key. */
  lemma UnfinishedGameSkipped(a: seq<Game>, g: Game, b: seq<Game>)
    requires g.gameState.Some? && g.gameState.value != Finished
    ensures GamesGoals(a + [g] + b) == GamesGoals(a + b)
  {
    GamesGoalsAppend(a + [g], b);
    GamesGoalsAppend(a, b);
    assert GameGoals(g) == Success([]);
    SkippedGameNeutral(a, g);
  }

  /** A finished game with a readable header but no `goals` key contributes
      nothing and does not fail. */
  lemma GoallessGameSkipped(a: seq<Game>, g: Game, b: seq<Game>)
    requires g.gameState == Some(Finished) && ReadHeader(g).Success? && g.goals.None?
    ensures GamesGoals(a + [g] + b) == GamesGoals(a + b)
  {
    GamesGoalsAppend(a + [g], b);
    GamesGoalsAppend(a, b);
    assert GameGoals(g) == Success([]);
    SkippedGameNeutral(a, g);
  }

  /** A finished game whose header cannot be read ends the call with that
      header's error once every game before it is readable, even when it has
      no `goals` key: the header is read first. */
  lemma {:induction false} BadHeaderIsFatal(games: seq<Game>, i: int)
    requires 0 <= i < |games| && forall k :: 0 <= k < i ==> GameReadable(games[k])
    requires games[i].gameState == Some(Finished) && ReadHeader(games[i]).Failure?
    ensures GamesGoals(games) == Failure(ReadHeader(games[i]).error)
    decreases i
  {
    if i == 0 {
      assert GameGoals(games[0]) == Failure(ReadHeader(games[0]).error);
    } else {
      GameGoalsMeaning(games[0]);
      assert games[1..][i - 1] == games[i];
      BadHeaderIsFatal(games[1..], i - 1);
    }
  }

  /** A goal entry with a missing key fails the whole call: the `KeyError`
      inside the entry loop is not caught. */
  lemma IncompleteEntryIsFatal(games: seq<Game>, i: int, k: int)
    requires 0 <= i < |games| && Contributes(games[i])
    requires 0 <= k < |games[i].goals.value| && !EntryComplete(games[i].goals.value[k])
    ensures GamesGoals(games).Failure?
  {
    GamesGoalsSucceeds(games);
  }

  // ---------------------------------------------------------------------
  // Worked example: the linescore test fixture

  const FixtureFinished: Game := Game(
    Some(2023020718), Some(20232024), Some("2024-01-21"), Some("OFF"),
    Some(TeamRef(Some("OTT"))), Some(TeamRef(Some("PHI"))),
    Some([
      GoalEntry(Some(1), Some("11:57"), Some(PlayerName(Some("E. Zamula"))), Some("PHI"), Some(1), Some(0), Some("PP")),
      GoalEntry(Some(1), Some("16:40"), Some(PlayerName(Some("E. Zamula"))), Some("PHI"), Some(2), Some(0), Some("EV"))
    ]))

  const FixtureLive: Game := Game(
    Some(2023020719), Some(20232024), Some("2024-01-21"), Some("LIVE"),
    Some(TeamRef(Some("MIN"))), Some(TeamRef(Some("CAR"))), None)

  const FixtureNoGoals: Game := Game(
    Some(2023020719), Some(20232024), Some("2024-01-21"), Some("OFF"),
    Some(TeamRef(Some("MIN"))), Some(TeamRef(Some("CAR"))), None)

  const FixtureDoc: LinescoreDoc := LinescoreDoc(Some([FixtureFinished, FixtureLive, FixtureNoGoals]))

  const FixtureExpected: seq<Goal> := [
    Goal(20232024, 2023020718, Date(2024, 1, 21), 1, Time(0, 11, 57), "E. Zamula", "PHI", "PHI", "OTT", 1, 0, "PP"),
    Goal(20232024, 2023020718, Date(2024, 1, 21), 1, Time(0, 16, 40), "E. Zamula", "PHI", "PHI", "OTT", 2, 0, "EV")
  ]

  lemma FixtureGameDate()
    ensures Parse("2024-01-21") == Success(Date(2024, 1, 21))
  {
    assert Format(Date(2024, 1, 21)) == "2024-01-21";
    ParseFormat(Date(2024, 1, 21));
  }

  lemma FixtureClocks()
    ensures ParseClock("11:57") == Success(Time(0, 11, 57))
    ensures ParseClock("16:40") == Success(Time(0, 16, 40))
  {
    assert FormatClock(Time(0, 11, 57)) == "11:57";
    ParseFormatClock(Time(0, 11, 57));
    assert FormatClock(Time(0, 16, 40)) == "16:40";
    ParseFormatClock(Time(0, 16, 40));
  }

  /** The fixture yields exactly the two PHI-vs-OTT goals, 1-0 on the power
      play and then 2-0 at even strength; the live game and the finished game
      without goals add nothing. */
  lemma FixtureGoals()
    ensures GoalsFromLinescores(FixtureDoc) == Success(FixtureExpected)
  {
    FixtureGameDate();
    FixtureClocks();
    var h := GameHeader(2023020718, 20232024, Date(2024, 1, 21), "PHI", "OTT");
    assert ReadHeader(FixtureFinished) == Success(h);
    var entries := FixtureFinished.goals.value;
    assert EntryGoal(h, entries[0]) == Success(FixtureExpected[0]);
    assert EntryGoal(h, entries[1]) == Success(FixtureExpected[1]);
    assert EntriesGoals(h, entries[1..]) == Success([FixtureExpected[1]]) by {
      assert entries[1..][0] == entries[1] && entries[1..][1..] == [];
      assert EntriesGoals(h, []) == Success([]);
      assert [FixtureExpected[1]] + [] == [FixtureExpected[1]];
    }
    assert EntriesGoals(h, entries) == Success(FixtureExpected) by {
      assert [FixtureExpected[0]] + [FixtureExpected[1]] == FixtureExpected;
    }
    assert GameGoals(FixtureFinished) == Success(FixtureExpected);
    assert GameGoals(FixtureLive) == Success([]);
    assert ReadHeader(FixtureNoGoals).Success?;
    assert GameGoals(FixtureNoGoals) == Success([]);
    SingleGame(FixtureFinished);
    SkippedGameNeutral([FixtureFinished], FixtureLive);
    SkippedGameNeutral([FixtureFinished, FixtureLive], FixtureNoGoals);
    assert [FixtureFinished] + [FixtureLive] == [FixtureFinished, FixtureLive];
    assert [FixtureFinished, FixtureLive] + [FixtureNoGoals] == FixtureDoc.games.value;
  }
}
