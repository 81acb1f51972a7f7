/** The local profile store of src/user/userManager.ts: settings with an "exactly one
    base" rule, a cyclic royale seed index, an append-only log of finished runs with
    statistics folded over it, and per-seed lives and high-score slots. localStorage
    is a map from key to the decoded value stored under it. */
module UserManager {
  import opened Wrappers
  import opened Strings
  import opened Attires

  // ---------------------------------------------------------------------------
  // Records

  datatype Aesthetics = Aesthetics(attire: seq<Attire>)

  /** The royale settings: the seed index last played. */
  datatype RoyaleSettings = RoyaleSettings(seedIndex: int)

  /** The stored profile. Profiles saved by older versions may lack `royale`. */
  datatype UserSettings = UserSettings(name: string, aesthetics: Aesthetics, royale: Option<RoyaleSettings>)

  /** A `Partial<UserSettings>`: each field is either present or absent. */
  datatype SettingsPatch = SettingsPatch(name: Option<string>, aesthetics: Option<Aesthetics>, royale: Option<RoyaleSettings>)

  /** The record of one finished run; times are milliseconds. */
  datatype GameResults = GameResults(startTimestamp: int, endTimestamp: int, position: int,
                                     totalBirds: int, flaps: int, score: int)

  /** The value under a localStorage key, as the key's reader decodes it. `RoyalesText`
      holds None when the stored text does not unzip to a list of runs. */
  datatype Stored =
    | SettingsText(settings: UserSettings)
    | RoyalesText(decoded: Option<seq<GameResults>>)
    | SeedNumbers(bySeed: map<string, int>)

  const DefaultLives := 10
  const DefaultRoyale := RoyaleSettings(-1)
  const ExactlyOneBaseError := "Must be one, and only be one base"

  /** `defaultSettings`, where `nameRoll` is `Math.floor(Math.random() * 999999)`. The
      trailing `+ 1` is applied to a string, so it appends the character '1'. */
  function DefaultSettings(nameRoll: nat, defaultAttire: Attire): (s: UserSettings)
    requires nameRoll < 999999
    ensures |s.name| >= 9 && s.name[..7] == "Flappy_" && s.name[|s.name| - 1] == '1'
    ensures s.aesthetics.attire == [defaultAttire] && s.royale == Some(DefaultRoyale)
  {
    UserSettings("Flappy_" + NatToString(nameRoll) + "1", Aesthetics([defaultAttire]), Some(DefaultRoyale))
  }

  // ---------------------------------------------------------------------------
  // changeSettings

  /** The settings after a patch is applied: exactly the present fields are replaced. */
  function Merge(existing: UserSettings, patch: SettingsPatch): (r: UserSettings)
    ensures patch == SettingsPatch(None, None, None) ==> r == existing
    ensures r.name == existing.name || Some(r.name) == patch.name
    ensures r.aesthetics == existing.aesthetics || Some(r.aesthetics) == patch.aesthetics
  {
    UserSettings(patch.name.GetOr(existing.name),
                 patch.aesthetics.GetOr(existing.aesthetics),
                 if patch.royale.Some? then patch.royale else existing.royale)
  }

  /** `changeSettings` refuses a patch whose attire does not hold exactly one base. */
  predicate Accepted(patch: SettingsPatch)
  {
    patch.aesthetics.Some? ==> OneBase(patch.aesthetics.value.attire)
  }

  /** A merge touches only the fields present in the patch. */
  lemma MergeReplacesOnlyPresentFields(existing: UserSettings, patch: SettingsPatch)
    ensures patch.name.Some? ==> Merge(existing, patch).name == patch.name.value
    ensures patch.name.None? ==> Merge(existing, patch).name == existing.name
    ensures patch.aesthetics.Some? ==> Merge(existing, patch).aesthetics == patch.aesthetics.value
    ensures patch.aesthetics.None? ==> Merge(existing, patch).aesthetics == existing.aesthetics
    ensures patch.royale.Some? ==> Merge(existing, patch).royale == patch.royale
    ensures patch.royale.None? ==> Merge(existing, patch).royale == existing.royale
  {
  }

  /** An accepted patch keeps a one-base profile a one-base profile. */
  lemma AcceptedMergeKeepsOneBase(existing: UserSettings, patch: SettingsPatch)
    requires OneBase(existing.aesthetics.attire) && Accepted(patch)
    ensures OneBase(Merge(existing, patch).aesthetics.attire)
  {
  }

  /** Merging the same patch twice is the same as merging it once. */
  lemma MergeIdempotent(existing: UserSettings, patch: SettingsPatch)
    ensures Merge(Merge(existing, patch), patch) == Merge(existing, patch)
  {
  }

  // ---------------------------------------------------------------------------
  // getAndBumpUserCycleSeedIndex

  /** The index after `seedIndex`: one more, or 0 once that reaches `cap`. */
  function NextSeedIndex(seedIndex: int, cap: int): (r: int)
    ensures seedIndex + 1 < cap ==> r == seedIndex + 1
    ensures seedIndex + 1 >= cap ==> r == 0
    ensures r < cap || r == 0
  {
    if seedIndex + 1 < cap then seedIndex + 1 else 0
  }

  /** An index in -1..cap-1 moves to an index in 0..cap-1. */
  lemma NextSeedIndexInRange(seedIndex: int, cap: int)
    requires cap >= 1 && -1 <= seedIndex < cap
    ensures 0 <= NextSeedIndex(seedIndex, cap) < cap
  {
  }

  /** The seed index after `k` bumps of a fresh profile. */
  function SeedIndexAfter(k: nat, cap: int): int
  {
    if k == 0 then DefaultRoyale.seedIndex else NextSeedIndex(SeedIndexAfter(k - 1, cap), cap)
  }

  /** From the default -1 the bumps cycle 0, 1, ..., cap - 1, 0, ...: the k-th bump
      returns (k - 1) mod cap, so the first returns 0. */
  lemma {:induction false} SeedIndexCycles(k: nat, cap: int)
    requires k >= 1 && cap >= 1
    ensures SeedIndexAfter(k, cap) == (k - 1) % cap
  {
    if k > 1 {
      SeedIndexCycles(k - 1, cap);
      ModSuccessor(k - 2, cap);
    }
  }

  /** (n + 1) mod cap is one more than n mod cap, or 0 when that reaches cap. */
  lemma ModSuccessor(n: nat, cap: int)
    requires cap >= 1
    ensures (n + 1) % cap == if n % cap + 1 < cap then n % cap + 1 else 0
  {
    var q, r := n / cap, n % cap;
    assert n == q * cap + r;
    if r + 1 < cap {
      assert n + 1 == q * cap + (r + 1);
      DivModUnique(n + 1, cap, q, r + 1);
    } else {
      assert n + 1 == (q + 1) * cap + 0;
      DivModUnique(n + 1, cap, q + 1, 0);
    }
  }

  lemma DivModUnique(m: int, cap: int, q: int, r: int)
    requires cap >= 1 && 0 <= r < cap && m == q * cap + r
    ensures m % cap == r
  {
    var q0, r0 := m / cap, m % cap;
    assert m == q0 * cap + r0;
    if q0 > q {
      MulAtLeast(q0 - q, cap);
    } else if q0 < q {
      MulAtLeast(q - q0, cap);
    }
  }

  lemma {:induction false} MulAtLeast(d: int, c: int)
    requires d >= 1 && c >= 0
    ensures d * c >= c
    decreases d
  {
    if d > 1 {
      MulAtLeast(d - 1, c);
      assert d * c == (d - 1) * c + c;
    }
  }

  // ---------------------------------------------------------------------------
  // getUserStatistics: the statistics of a list of runs, each defined over the runs
  // in the order `forEach` visits them

  /** The highest score, or 0. */
  function BestScore(runs: seq<GameResults>): (r: int)
    ensures r >= 0
  {
    if runs == [] then 0
    else
      var best := BestScore(runs[..|runs| - 1]);
      if runs[|runs| - 1].score > best then runs[|runs| - 1].score else best
  }

  /** The lowest position, or 500. */
  function BestPosition(runs: seq<GameResults>): (r: int)
    ensures r <= 500
  {
    if runs == [] then 500
    else
      var best := BestPosition(runs[..|runs| - 1]);
      if runs[|runs| - 1].position < best then runs[|runs| - 1].position else best
  }

  /** The number of runs won (position 0). */
  function RoyaleWins(runs: seq<GameResults>): (r: nat)
    ensures r <= |runs|
  {
    if runs == [] then 0
    else RoyaleWins(runs[..|runs| - 1]) + (if runs[|runs| - 1].position == 0 then 1 else 0)
  }

  /** The number of runs that did not pass a pipe (score 0). */
  function InstaDeaths(runs: seq<GameResults>): (r: nat)
    ensures r <= |runs|
  {
    if runs == [] then 0
    else InstaDeaths(runs[..|runs| - 1]) + (if runs[|runs| - 1].score == 0 then 1 else 0)
  }

  /** The sum of `totalBirds - position`. */
  function BirdsBeaten(runs: seq<GameResults>): int
  {
    if runs == [] then 0
    else BirdsBeaten(runs[..|runs| - 1]) + (runs[|runs| - 1].totalBirds - runs[|runs| - 1].position)
  }

  /** The sum of `endTimestamp - startTimestamp`. */
  function TotalTime(runs: seq<GameResults>): int
  {
    if runs == [] then 0
    else TotalTime(runs[..|runs| - 1]) + (runs[|runs| - 1].endTimestamp - runs[|runs| - 1].startTimestamp)
  }

  /** The sum of `flaps`. */
  function TotalFlaps(runs: seq<GameResults>): int
  {
    if runs == [] then 0
    else TotalFlaps(runs[..|runs| - 1]) + runs[|runs| - 1].flaps
  }

  /** The best score is at least every score, and is 0 or one of them. */
  lemma {:induction false} BestScoreBounds(runs: seq<GameResults>)
    ensures forall i :: 0 <= i < |runs| ==> runs[i].score <= BestScore(runs)
    ensures BestScore(runs) == 0 || exists i :: 0 <= i < |runs| && runs[i].score == BestScore(runs)
  {
    if runs != [] {
      var init := runs[..|runs| - 1];
      BestScoreBounds(init);
      assert forall i :: 0 <= i < |init| ==> init[i] == runs[i];
    }
  }

  /** The best position is at most every position, and is 500 or one of them. */
  lemma {:induction false} BestPositionBounds(runs: seq<GameResults>)
    ensures forall i :: 0 <= i < |runs| ==> BestPosition(runs) <= runs[i].position
    ensures BestPosition(runs) == 500 || exists i :: 0 <= i < |runs| && runs[i].position == BestPosition(runs)
  {
    if runs != [] {
      var init := runs[..|runs| - 1];
      BestPositionBounds(init);
      assert forall i :: 0 <= i < |init| ==> init[i] == runs[i];
    }
  }

  /** No wins exactly when no run finished in position 0. */
  lemma {:induction false} RoyaleWinsZero(runs: seq<GameResults>)
    ensures RoyaleWins(runs) == 0 <==> forall i :: 0 <= i < |runs| ==> runs[i].position != 0
  {
    if runs != [] {
      var init := runs[..|runs| - 1];
      RoyaleWinsZero(init);
      assert forall i :: 0 <= i < |init| ==> init[i] == runs[i];
    }
  }

  /** No insta-deaths exactly when every run scored. */
  lemma {:induction false} InstaDeathsZero(runs: seq<GameResults>)
    ensures InstaDeaths(runs) == 0 <==> forall i :: 0 <= i < |runs| ==> runs[i].score != 0
  {
    if runs != [] {
      var init := runs[..|runs| - 1];
      InstaDeathsZero(init);
      assert forall i :: 0 <= i < |init| ==> init[i] == runs[i];
    }
  }

  datatype Statistics = Statistics(gamesPlayed: int, bestScore: int, bestPosition: int, royaleWins: int,
                                   birdsBeaten: int, crashes: int, totalTime: int, instaDeaths: int,
                                   totalFlaps: int)

  /** The statistics of the runs; `crashes` counts the runs not won. */
  function StatisticsOf(runs: seq<GameResults>): (s: Statistics)
    ensures s.gamesPlayed == |runs|
    ensures 0 <= s.crashes <= s.gamesPlayed && s.crashes + s.royaleWins == s.gamesPlayed
    ensures 0 <= s.instaDeaths <= s.gamesPlayed
  {
    Statistics(|runs|, BestScore(runs), BestPosition(runs), RoyaleWins(runs), BirdsBeaten(runs),
               |runs| - RoyaleWins(runs), TotalTime(runs), InstaDeaths(runs), TotalFlaps(runs))
  }

  /** Recording one more run moves each statistic by that run alone. */
  lemma StatisticsAfterOneMoreRun(runs: seq<GameResults>, run: GameResults)
    ensures var before, after := StatisticsOf(runs), StatisticsOf(runs + [run]);
      after.gamesPlayed == before.gamesPlayed + 1
      && after.bestScore == (if run.score > before.bestScore then run.score else before.bestScore)
      && after.bestPosition == (if run.position < before.bestPosition then run.position else before.bestPosition)
      && after.royaleWins == before.royaleWins + (if run.position == 0 then 1 else 0)
      && after.instaDeaths == before.instaDeaths + (if run.score == 0 then 1 else 0)
      && after.crashes == before.crashes + (if run.position == 0 then 0 else 1)
      && after.birdsBeaten == before.birdsBeaten + run.totalBirds - run.position
      && after.totalTime == before.totalTime + run.endTimestamp - run.startTimestamp
      && after.totalFlaps == before.totalFlaps + run.flaps
  {
    assert (runs + [run])[..|runs|] == runs;
  }

  // ---------------------------------------------------------------------------
  // Lives and high scores

  /** The lives `getLives` reports: the stored count, 0 included, or 10 when absent. */
  function LivesFor(table: map<string, int>, seed: string): int
  {
    if seed in table then table[seed] else DefaultLives
  }

  /** The count `addLives` adds to: `stored || 10`, so a stored 0 counts as absent. */
  function LivesBase(table: map<string, int>, seed: string): int
  {
    if seed in table && table[seed] != 0 then table[seed] else DefaultLives
  }

  /** `getLives` and `addLives` read the same count except when 0 lives are stored:
      then `getLives` reports 0 and `addLives` starts again from 10. */
  lemma LivesReadersDisagreeOnlyOnZero(table: map<string, int>, seed: string)
    ensures LivesFor(table, seed) != LivesBase(table, seed) <==> seed in table && table[seed] == 0
    ensures seed in table && table[seed] == 0 ==> LivesFor(table, seed) == 0 && LivesBase(table, seed) == DefaultLives
  {
  }

  /** Taking a life from a seed with 0 lives stored leaves 9. */
  lemma SubtractFromZeroLeavesNine(seed: string)
    ensures LivesFor(map[seed := LivesBase(map[seed := 0], seed) - 1], seed) == 9
  {
  }

  /** The high score `getHighScore` reports: the stored score, or 0. */
  function HighScoreFor(table: map<string, int>, seed: string): int
  {
    if seed in table then table[seed] else 0
  }

  // ---------------------------------------------------------------------------
  // The store

  class UserStore {
    /** localStorage, by key. */
    var storage: map<string, Stored>
    /** `defaultSettings`, fixed when the module loads. */
    const defaults: UserSettings

    constructor(nameRoll: nat, defaultAttire: Attire)
      requires nameRoll < 999999
      ensures storage == map[] && defaults == DefaultSettings(nameRoll, defaultAttire)
    {
      storage := map[];
      defaults := DefaultSettings(nameRoll, defaultAttire);
    }

    /** `getUserSettings()`: the stored profile, or the defaults. */
    function Settings(): UserSettings
      reads this
    {
      if "settings" in storage && storage["settings"].SettingsText? then storage["settings"].settings
      else defaults
    }

    /** `getRoyales()`: the stored runs, or [] when nothing is stored or it does not decode. */
    function Royales(): seq<GameResults>
      reads this
    {
      if "royales" in storage && storage["royales"].RoyalesText? && storage["royales"].decoded.Some?
      then storage["royales"].decoded.value
      else []
    }

    /** The seed table stored under `key`, or the empty table. */
    function SeedTable(key: string): map<string, int>
      reads this
    {
      if key in storage && storage[key].SeedNumbers? then storage[key].bySeed else map[]
    }

    /** `changeSettings(patch)`: an error and nothing saved when the patch's attire does
        not hold exactly one base; otherwise the merged profile is saved. */
    method ChangeSettings(patch: SettingsPatch) returns (error: Option<string>)
      modifies this
      ensures !Accepted(patch) ==> error == Some(ExactlyOneBaseError) && storage == old(storage)
      ensures Accepted(patch) ==> error == None
      ensures Accepted(patch) ==> storage == old(storage)["settings" := SettingsText(Merge(old(Settings()), patch))]
    {
      var existing := Settings();
      if patch.aesthetics.Some? {
        var base := Bases(patch.aesthetics.value.attire);
        if |base| != 1 {
          return Some(ExactlyOneBaseError);
        }
      }
      storage := storage["settings" := SettingsText(Merge(existing, patch))];
      return None;
    }

    /** `getAndBumpUserCycleSeedIndex(cap)`: the next index (a profile without royale
        settings starts from -1), saved and returned; nothing else in the profile moves. */
    method GetAndBumpUserCycleSeedIndex(cap: int) returns (index: int)
      modifies this
      ensures index == NextSeedIndex(old(Settings()).royale.GetOr(DefaultRoyale).seedIndex, cap)
      ensures Settings() == old(Settings()).(royale := Some(RoyaleSettings(index)))
      ensures storage == old(storage)["settings" := SettingsText(Settings())]
    {
      var settings := Settings();
      var royale := if settings.royale.Some? then settings.royale.value else DefaultRoyale;
      var newIndex := royale.seedIndex + 1;
      index := if newIndex < cap then newIndex else 0;
      var error := ChangeSettings(SettingsPatch(None, None, Some(RoyaleSettings(index))));
    }

    /** `recordGamePlayed(results)`: the run is appended to the stored runs. */
    method RecordGamePlayed(results: GameResults)
      modifies this
      ensures Royales() == old(Royales()) + [results]
      ensures storage == old(storage)["royales" := RoyalesText(Some(old(Royales()) + [results]))]
    {
      var existingRoyales := Royales();
      existingRoyales := existingRoyales + [results];
      storage := storage["royales" := RoyalesText(Some(existingRoyales))];
    }

    /** `getUserStatistics()`: one pass over the stored runs. */
    method GetUserStatistics() returns (stats: Statistics)
      ensures stats == StatisticsOf(Royales())
    {
      var runs := Royales();
      stats := Statistics(|runs|, 0, 500, 0, 0, 0, 0, 0, 0);
      for i := 0 to |runs|
        invariant stats == StatisticsOf(runs[..i]).(gamesPlayed := |runs|, crashes := 0)
      {
        var run := runs[i];
        assert runs[..i + 1] == runs[..i] + [run];
        StatisticsAfterOneMoreRun(runs[..i], run);
        if run.score > stats.bestScore {
          stats := stats.(bestScore := run.score);
        }
        if run.position < stats.bestPosition {
          stats := stats.(bestPosition := run.position);
        }
        if run.position == 0 {
          stats := stats.(royaleWins := stats.royaleWins + 1);
        }
        stats := stats.(birdsBeaten := stats.birdsBeaten + (run.totalBirds - run.position));
        if run.score == 0 {
          stats := stats.(instaDeaths := stats.instaDeaths + 1);
        }
        stats := stats.(totalTime := stats.totalTime + (run.endTimestamp - run.startTimestamp));
        stats := stats.(totalFlaps := stats.totalFlaps + run.flaps);
      }
      assert runs[..|runs|] == runs;
      stats := stats.(crashes := stats.gamesPlayed - stats.royaleWins);
    }

    /** `getLives(seed)`: the seed's lives, 0 included, or 10; afterwards the lives
        table holds that seed alone. */
    method GetLives(seed: string) returns (lives: int)
      modifies this
      ensures lives == LivesFor(old(SeedTable("lives")), seed)
      ensures storage == old(storage)["lives" := SeedNumbers(map[seed := lives])]
    {
      var table := SeedTable("lives");
      lives := if seed in table then table[seed] else DefaultLives;
      storage := storage["lives" := SeedNumbers(map[seed := lives])];
    }

    /** `addLives(seed, val)`: `(stored || 10) + val`, saved as the only entry and returned. */
    method AddLives(seed: string, val: int) returns (lives: int)
      modifies this
      ensures lives == LivesBase(old(SeedTable("lives")), seed) + val
      ensures storage == old(storage)["lives" := SeedNumbers(map[seed := lives])]
    {
      var table := SeedTable("lives");
      var current := if seed in table && table[seed] != 0 then table[seed] else DefaultLives;
      lives := current + val;
      storage := storage["lives" := SeedNumbers(map[seed := lives])];
    }

    /** `subtractALife(seed)`: `addLives(seed, -1)`. */
    method SubtractALife(seed: string) returns (lives: int)
      modifies this
      ensures lives == LivesBase(old(SeedTable("lives")), seed) - 1
      ensures storage == old(storage)["lives" := SeedNumbers(map[seed := lives])]
    {
      lives := AddLives(seed, -1);
    }

    /** `getHighScore(seed)`: the stored score or 0; `{seed: 0}` is written only when
        the stored score is missing or 0. */
    method GetHighScore(seed: string) returns (score: int)
      modifies this
      ensures score == HighScoreFor(old(SeedTable("highScore")), seed)
      ensures score == 0 ==> storage == old(storage)["highScore" := SeedNumbers(map[seed := 0])]
      ensures score != 0 ==> storage == old(storage)
    {
      var table := SeedTable("highScore");
      var scoreNum := if seed in table then table[seed] else 0;
      if scoreNum == 0 {
        storage := storage["highScore" := SeedNumbers(map[seed := 0])];
      }
      return scoreNum;
    }

    /** `setHighScore(seed, score)`: overwrites without comparing and drops other seeds. */
    method SetHighScore(seed: string, score: int)
      modifies this
      ensures storage == old(storage)["highScore" := SeedNumbers(map[seed := score])]
      ensures HighScoreFor(SeedTable("highScore"), seed) == score
    {
      storage := storage["highScore" := SeedNumbers(map[seed := score])];
    }
  }
}
