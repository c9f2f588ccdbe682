/**
 * The statistics layer over completed games (sudoku/database/services.py).
 * The repository is a sequence of records, or, for its two ordered queries,
 * functions supplied by the caller.
 */
module Services {
  import opened Wrappers
  import opened Models
  import opened Helpers

  /** A stored game: its level, completion time in seconds, hints taken and score. */
  datatype GameRecord = GameRecord(difficulty: Difficulty, completionTime: int, hintsUsed: int, score: int)

  /** One `best_scores` entry. */
  datatype BestScore = BestScore(score: int, time: int, hintsUsed: int)

  /**
   * The dictionary `get_personal_stats` returns. The source keys both inner
   * maps by the level's name; names and levels correspond one to one
   * (Models.NamesAndValuesAreInjective), so here they are keyed by the level.
   */
  datatype PersonalStats = PersonalStats(
    totalGames: int,
    totalTime: int,
    averageTime: int,
    bestScores: map<Difficulty, BestScore>,
    gamesByDifficulty: map<Difficulty, int>)

  // ---------------------------------------------------------------------------
  // save_game_record

  /**
   * The record `save_game_record` hands to the repository. Its identifier and
   * completion date are assigned outside the model.
   */
  function NewGameRecord(difficulty: Difficulty, completionTime: int, hintsUsed: int): (rec: GameRecord)
    ensures rec.difficulty == difficulty && rec.completionTime == completionTime && rec.hintsUsed == hintsUsed
    ensures rec.score == CalculateDifficultyScore(difficulty.Name(), completionTime, hintsUsed)
    ensures completionTime >= 0 && hintsUsed >= 0 ==> 0 <= rec.score <= LevelBase(difficulty)
    ensures hintsUsed <= 0 ==> rec.score >= LevelBase(difficulty) / 2
  {
    LevelBaseIsBaseScore(difficulty);
    GameRecord(difficulty, completionTime, hintsUsed, CalculateDifficultyScore(difficulty.Name(), completionTime, hintsUsed))
  }

  /** The base score of each level, as the scorer's table gives it. */
  function LevelBase(difficulty: Difficulty): int {
    match difficulty
    case EASY => 100
    case MEDIUM => 200
    case HARD => 300
  }

  /** A level's own name scores with that level's base. */
  lemma LevelBaseIsBaseScore(difficulty: Difficulty)
    ensures BaseScore(difficulty.Name()) == LevelBase(difficulty)
  {
    var name := difficulty.Name();
    assert Upper(name) == name;
  }

  /** A faster game with no more hints never scores lower. */
  lemma FasterGamesScoreAtLeastAsHigh(difficulty: Difficulty, t1: int, t2: int, h1: int, h2: int)
    requires t1 <= t2 && h1 <= h2
    ensures NewGameRecord(difficulty, t2, h2).score <= NewGameRecord(difficulty, t1, h1).score
  {
    ScoreIsAntitone(difficulty.Name(), t1, t2, h1, h2);
  }

  // ---------------------------------------------------------------------------
  // get_leaderboard

  function Min(a: int, b: int): int {
    if a <= b then a else b
  }

  /** Python's `s[:limit]`; a negative limit counts back from the end. */
  function Take<T>(s: seq<T>, limit: int): (t: seq<T>)
    ensures t <= s
    ensures limit >= 0 ==> |t| == Min(limit, |s|)
    ensures limit < 0 ==> |t| == if |s| + limit >= 0 then |s| + limit else 0
  {
    if limit >= 0 then (if limit <= |s| then s[..limit] else s)
    else if |s| + limit >= 0 then s[..|s| + limit]
    else []
  }

  /** Taking twice keeps the shorter prefix. */
  lemma TakeTake<T>(s: seq<T>, a: nat, b: nat)
    ensures Take(Take(s, a), b) == Take(s, Min(a, b))
  {
  }

  /**
   * `get_leaderboard`: with a level, the first `limit` records of the
   * repository's list for that level; without one, the repository's own
   * top-`limit` query. Both queries are supplied by the caller.
   */
  function GetLeaderboard(
    difficulty: Option<Difficulty>,
    limit: int,
    byDifficulty: Difficulty -> seq<GameRecord>,
    topScores: int -> seq<GameRecord>): (board: seq<GameRecord>)
    ensures difficulty.Some? ==> board <= byDifficulty(difficulty.value)
    ensures difficulty.Some? && limit >= 0 ==> |board| == Min(limit, |byDifficulty(difficulty.value)|)
    ensures difficulty.None? ==> board == topScores(limit)
  {
    match difficulty
    case Some(d) => Take(byDifficulty(d), limit)
    case None => topScores(limit)
  }

  /** The default limit of ten leaves at most ten rows, and a longer limit never reorders them. */
  lemma LeaderboardGrowsWithLimit(
    d: Difficulty, a: nat, b: nat,
    byDifficulty: Difficulty -> seq<GameRecord>, topScores: int -> seq<GameRecord>)
    requires a <= b
    ensures GetLeaderboard(Some(d), a, byDifficulty, topScores) <= GetLeaderboard(Some(d), b, byDifficulty, topScores)
    ensures |GetLeaderboard(Some(d), 10, byDifficulty, topScores)| <= 10
  {
    TakeTake(byDifficulty(d), b, a);
  }

  // ---------------------------------------------------------------------------
  // get_personal_stats

  /** `sum(r.completion_time for r in records)`. */
  function TotalTime(records: seq<GameRecord>): int {
    if records == [] then 0 else TotalTime(records[..|records| - 1]) + records[|records| - 1].completionTime
  }

  /** `[r for r in records if r.difficulty == difficulty]`. */
  function RecordsOf(records: seq<GameRecord>, difficulty: Difficulty): (picked: seq<GameRecord>)
    ensures |picked| <= |records|
    ensures forall r :: r in picked <==> r in records && r.difficulty == difficulty
  {
    if records == [] then []
    else
      var last := records[|records| - 1];
      RecordsOf(records[..|records| - 1], difficulty) + (if last.difficulty == difficulty then [last] else [])
  }

  /** The filter keeps each record of the level as often as it occurs, and no other record. */
  lemma {:induction false} RecordsOfCounts(records: seq<GameRecord>, difficulty: Difficulty)
    ensures forall r :: multiset(RecordsOf(records, difficulty))[r] == if r.difficulty == difficulty then multiset(records)[r] else 0
  {
    if records != [] {
      var last := records[|records| - 1];
      RecordsOfCounts(records[..|records| - 1], difficulty);
      assert records == records[..|records| - 1] + [last];
    }
  }

  /**
   * The position `max(records, key=score)` picks: a highest score, and the
   * first one when several records share it.
   */
  function BestIndex(records: seq<GameRecord>): (i: nat)
    requires records != []
    ensures i < |records|
    ensures forall j :: 0 <= j < |records| ==> records[j].score <= records[i].score
    ensures forall j :: 0 <= j < i ==> records[j].score < records[i].score
  {
    if |records| == 1 then 0
    else
      var i := BestIndex(records[..|records| - 1]);
      if records[|records| - 1].score > records[i].score then |records| - 1 else i
  }

  /** The best-score entry the stats report for one game. */
  function Entry(r: GameRecord): BestScore {
    BestScore(r.score, r.completionTime, r.hintsUsed)
  }

  function BestEntry(records: seq<GameRecord>): BestScore
    requires records != []
  {
    Entry(records[BestIndex(records)])
  }

  /**
   * The game whose entry the stats report for `difficulty`, as a position in
   * all records: a game of that level with the highest score among the level's
   * games, and the earliest such game.
   */
  function BestPosition(all: seq<GameRecord>, difficulty: Difficulty): (i: nat)
    requires RecordsOf(all, difficulty) != []
    ensures i < |all| && all[i].difficulty == difficulty
    ensures forall j :: 0 <= j < |all| && all[j].difficulty == difficulty ==> all[j].score <= all[i].score
    ensures forall j :: 0 <= j < i && all[j].difficulty == difficulty ==> all[j].score < all[i].score
    decreases |all|
  {
    var n := |all| - 1;
    var front := all[..n];
    if RecordsOf(front, difficulty) == [] then
      NoneOfLevel(front, difficulty);
      assert all == front + [all[n]];
      n
    else
      var i := BestPosition(front, difficulty);
      assert all == front + [all[n]];
      if all[n].difficulty == difficulty && all[n].score > all[i].score then n else i
  }

  /** The positions of the level's games among all records. */
  function GamesOf(all: seq<GameRecord>, difficulty: Difficulty): set<int> {
    set j | 0 <= j < |all| && all[j].difficulty == difficulty
  }

  /** The filter keeps one record per game of the level. */
  lemma {:induction false} LevelCountIsNumberOfGames(all: seq<GameRecord>, difficulty: Difficulty)
    ensures |RecordsOf(all, difficulty)| == |GamesOf(all, difficulty)|
  {
    if all != [] {
      var n := |all| - 1;
      LevelCountIsNumberOfGames(all[..n], difficulty);
      GamesOfSnoc(all, difficulty);
    }
  }

  /** One more record adds its position to its level's games and nothing else. */
  lemma GamesOfSnoc(all: seq<GameRecord>, difficulty: Difficulty)
    requires all != []
    ensures |GamesOf(all, difficulty)| ==
      |GamesOf(all[..|all| - 1], difficulty)| + (if all[|all| - 1].difficulty == difficulty then 1 else 0)
  {
    var n := |all| - 1;
    var front := all[..n];
    var games, games0 := GamesOf(all, difficulty), GamesOf(front, difficulty);
    var added: set<int> := if all[n].difficulty == difficulty then {n} else {};
    forall j ensures j in games <==> j in games0 + added {
      if 0 <= j < n {
        assert front[j] == all[j];
      }
    }
    assert games == games0 + added;
    assert n !in games0;
  }

  /** A filter that keeps nothing saw no record of the level. */
  lemma NoneOfLevel(records: seq<GameRecord>, difficulty: Difficulty)
    requires RecordsOf(records, difficulty) == []
    ensures forall j :: 0 <= j < |records| ==> records[j].difficulty != difficulty
  {
    forall j | 0 <= j < |records|
      ensures records[j].difficulty != difficulty
    {
      assert records[j] !in RecordsOf(records, difficulty);
    }
  }

  /** The first maximum of the filtered records is the game `BestPosition` finds. */
  lemma {:induction false} BestEntryIsBestPosition(all: seq<GameRecord>, difficulty: Difficulty)
    requires RecordsOf(all, difficulty) != []
    ensures BestEntry(RecordsOf(all, difficulty)) == Entry(all[BestPosition(all, difficulty)])
    ensures RecordsOf(all, difficulty)[BestIndex(RecordsOf(all, difficulty))] == all[BestPosition(all, difficulty)]
    decreases |all|
  {
    var n := |all| - 1;
    var front, last := all[..n], all[n];
    var picked, picked0 := RecordsOf(all, difficulty), RecordsOf(front, difficulty);
    if last.difficulty == difficulty {
      assert picked == picked0 + [last];
      if picked0 != [] {
        BestEntryIsBestPosition(front, difficulty);
        assert picked[..|picked| - 1] == picked0;
        assert front[BestPosition(front, difficulty)] == all[BestPosition(front, difficulty)];
      }
    } else {
      assert picked == picked0;
      BestEntryIsBestPosition(front, difficulty);
      assert front[BestPosition(front, difficulty)] == all[BestPosition(front, difficulty)];
    }
  }

  /** Every record has exactly one level, so the per-level counts add up to the total. */
  lemma {:induction false} CountsSumToTotal(records: seq<GameRecord>)
    ensures |RecordsOf(records, EASY)| + |RecordsOf(records, MEDIUM)| + |RecordsOf(records, HARD)| == |records|
  {
    if records != [] {
      CountsSumToTotal(records[..|records| - 1]);
    }
  }

  /** Completion times that are all non-negative sum to a non-negative total. */
  lemma {:induction false} TotalTimeNonNegative(records: seq<GameRecord>)
    requires forall i :: 0 <= i < |records| ==> records[i].completionTime >= 0
    ensures TotalTime(records) >= 0
  {
    if records != [] {
      TotalTimeNonNegative(records[..|records| - 1]);
    }
  }

  /**
   * `get_personal_stats` over the repository's records `all`: all zeros and
   * empty maps without records; otherwise the count, the summed and the floor
   * averaged completion times, and for each level that has records its best
   * game and its number of games.
   */
  method GetPersonalStats(all: seq<GameRecord>) returns (stats: PersonalStats)
    ensures all == [] ==> stats == PersonalStats(0, 0, 0, map[], map[])
    ensures all != [] ==>
      stats.totalGames == |all| && stats.totalTime == TotalTime(all) && stats.averageTime == TotalTime(all) / |all|
    ensures forall d :: d in stats.bestScores <==> RecordsOf(all, d) != []
    ensures forall d :: d in stats.gamesByDifficulty <==> RecordsOf(all, d) != []
    ensures forall d :: d in stats.bestScores ==> stats.bestScores[d] == BestEntry(RecordsOf(all, d))
    ensures forall d :: d in stats.gamesByDifficulty ==> stats.gamesByDifficulty[d] == |RecordsOf(all, d)|
    ensures forall d :: d in stats.bestScores ==> stats.bestScores[d] == Entry(all[BestPosition(all, d)])
    ensures forall d :: d in stats.gamesByDifficulty ==> stats.gamesByDifficulty[d] == |GamesOf(all, d)|
  {
    if all == [] {
      return PersonalStats(0, 0, 0, map[], map[]);
    }
    var best: map<Difficulty, BestScore> := map[];
    var counts: map<Difficulty, int> := map[];
    for i := 0 to |AllDifficulties|
      invariant forall d :: d in best <==> d in AllDifficulties[..i] && RecordsOf(all, d) != []
      invariant forall d :: d in counts <==> d in AllDifficulties[..i] && RecordsOf(all, d) != []
      invariant forall d :: d in best ==> best[d] == BestEntry(RecordsOf(all, d))
      invariant forall d :: d in counts ==> counts[d] == |RecordsOf(all, d)|
      invariant forall d :: d in best ==> best[d] == Entry(all[BestPosition(all, d)])
      invariant forall d :: d in counts ==> counts[d] == |GamesOf(all, d)|
    {
      var difficulty := AllDifficulties[i];
      assert AllDifficulties[..i + 1] == AllDifficulties[..i] + [difficulty];
      var difficultyRecords := RecordsOf(all, difficulty);
      if difficultyRecords != [] {
        BestEntryIsBestPosition(all, difficulty);
        LevelCountIsNumberOfGames(all, difficulty);
        best := best[difficulty := BestEntry(difficultyRecords)];
        counts := counts[difficulty := |difficultyRecords|];
      }
    }
    assert AllDifficulties[..|AllDifficulties|] == AllDifficulties;
    stats := PersonalStats(|all|, TotalTime(all), TotalTime(all) / |all|, best, counts);
  }
}
