/** The data shaping in src/playFab.ts around the PlayFab calls: the statistics list a
    finished game reports, the comma-joined attire ids stored in the avatar URL and
    their decoding, and the de-duplicated death leaderboard. The SDK calls themselves
    are not part of this model. */
module PlayFab {
  import opened Wrappers
  import opened Strings
  import opened Attires

  // ---------------------------------------------------------------------------
  // playedGame

  /** The game modes `playedGame` tells apart; every other mode is `OtherMode`. */
  datatype GameMode = Trial | Royale | OtherMode

  /** The argument of `playedGame`; `winStreak` and `birdsPast` are optional. */
  datatype PlayedGame = PlayedGame(mode: GameMode, score: int, flaps: int, won: bool,
                                   winStreak: Option<int>, birdsPast: Option<int>)

  /** One entry of the `UpdatePlayerStatistics` request. */
  datatype Statistic = Statistic(name: string, value: int)

  /** An optional number is truthy when present and non-zero. */
  predicate Truthy(n: Option<int>) { n.Some? && n.value != 0 }

  /** Some entry of `stats` carries `name`. */
  predicate Named(stats: seq<Statistic>, name: string)
  {
    exists i :: 0 <= i < |stats| && stats[i].name == name
  }

  /** The statistics a finished game reports, in push order: the three fixed entries,
      then FirstPipeFails, the royale win entries, the mode's entries and BirdsPast,
      each only under its condition. */
  function GameStats(data: PlayedGame, apiVersion: string): seq<Statistic>
  {
    var seg := Segments(data, apiVersion);
    [Statistic("TotalGamesPlayed", 1), Statistic("Score", data.score), Statistic("Flaps", data.flaps)]
    + seg[0] + seg[1] + seg[2] + seg[3]
  }

  /** The statistics list of a finished game, built by successive pushes. */
  method PlayedGameStats(data: PlayedGame, apiVersion: string) returns (stats: seq<Statistic>)
    ensures stats == GameStats(data, apiVersion)
  {
    ghost var seg := Segments(data, apiVersion);
    stats := [Statistic("TotalGamesPlayed", 1), Statistic("Score", data.score), Statistic("Flaps", data.flaps)];
    ghost var base := stats;

    if data.score == 0 {
      stats := stats + [Statistic("FirstPipeFails", 1)];
    }
    assert stats == base + seg[0];

    if data.won {
      stats := stats + [Statistic("RoyaleGamesWon", 1)];

      if Truthy(data.winStreak) {
        stats := stats + [Statistic("RoyaleWinStreak", data.winStreak.value)];
      }
    }
    assert stats == base + seg[0] + seg[1];

    if data.mode == Trial {
      stats := stats + [Statistic("DailyTrial", data.score)];
      stats := stats + [Statistic("DailyTrial-" + apiVersion, data.score)];
    } else if data.mode == Royale {
      stats := stats + [Statistic("RoyaleGamesPlayed", 1)];
    }
    assert stats == base + seg[0] + seg[1] + seg[2];

    if Truthy(data.birdsPast) {
      stats := stats + [Statistic("BirdsPast", data.birdsPast.value)];
    }
  }

  lemma NamedConcat(a: seq<Statistic>, b: seq<Statistic>, name: string)
    ensures Named(a + b, name) <==> Named(a, name) || Named(b, name)
  {
    if Named(a + b, name) {
      var i :| 0 <= i < |a + b| && (a + b)[i].name == name;
      if i >= |a| {
        assert b[i - |a|].name == name;
      }
    }
    if Named(b, name) {
      var i :| 0 <= i < |b| && b[i].name == name;
      assert (a + b)[|a| + i].name == name;
    }
    if Named(a, name) {
      var i :| 0 <= i < |a| && a[i].name == name;
      assert (a + b)[i].name == name;
    }
  }

  /** The four optional parts of the list, in push order. */
  function Segments(data: PlayedGame, apiVersion: string): seq<seq<Statistic>>
  {
    [(if data.score == 0 then [Statistic("FirstPipeFails", 1)] else []),
     (if data.won then
        [Statistic("RoyaleGamesWon", 1)]
        + (if Truthy(data.winStreak) then [Statistic("RoyaleWinStreak", data.winStreak.value)] else [])
      else []),
     (if data.mode == Trial then [Statistic("DailyTrial", data.score), Statistic("DailyTrial-" + apiVersion, data.score)]
      else if data.mode == Royale then [Statistic("RoyaleGamesPlayed", 1)]
      else []),
     (if Truthy(data.birdsPast) then [Statistic("BirdsPast", data.birdsPast.value)] else [])]
  }

  /** A name is in the list exactly when it is one of the fixed three or is in one of
      the optional parts. */
  lemma NamedInGameStats(data: PlayedGame, apiVersion: string, name: string)
    ensures var seg := Segments(data, apiVersion);
      Named(GameStats(data, apiVersion), name) <==>
        name in {"TotalGamesPlayed", "Score", "Flaps"} || Named(seg[0], name) || Named(seg[1], name)
        || Named(seg[2], name) || Named(seg[3], name)
  {
    var seg: seq<seq<Statistic>> := Segments(data, apiVersion);
    var base := [Statistic("TotalGamesPlayed", 1), Statistic("Score", data.score), Statistic("Flaps", data.flaps)];
    assert GameStats(data, apiVersion) == base + seg[0] + seg[1] + seg[2] + seg[3];
    NamedConcat(base + seg[0] + seg[1] + seg[2], seg[3], name);
    NamedConcat(base + seg[0] + seg[1], seg[2], name);
    NamedConcat(base + seg[0], seg[1], name);
    NamedConcat(base, seg[0], name);
    assert Named(base, name) <==> name in {"TotalGamesPlayed", "Score", "Flaps"} by {
      if name in {"TotalGamesPlayed", "Score", "Flaps"} {
        assert name == base[0].name || name == base[1].name || name == base[2].name;
      }
    }
  }

  /** The list always opens with TotalGamesPlayed 1, the score and the flaps, and holds
      between three and nine entries. */
  lemma GameStatsShape(data: PlayedGame, apiVersion: string)
    ensures var stats := GameStats(data, apiVersion);
      3 <= |stats| <= 9 &&
      stats[..3] == [Statistic("TotalGamesPlayed", 1), Statistic("Score", data.score), Statistic("Flaps", data.flaps)]
  {
  }

  /** FirstPipeFails 1 is reported exactly for a score of 0. */
  lemma FirstPipeFailsIffScoreZero(data: PlayedGame, apiVersion: string)
    ensures Named(GameStats(data, apiVersion), "FirstPipeFails") <==> data.score == 0
    ensures data.score == 0 ==> Statistic("FirstPipeFails", 1) in GameStats(data, apiVersion)
  {
    NamedInGameStats(data, apiVersion, "FirstPipeFails");
    var seg: seq<seq<Statistic>> := Segments(data, apiVersion);
    TrialNameDiffers(apiVersion);
    if data.score == 0 {
      assert seg[0][0].name == "FirstPipeFails";
    }
  }

  /** RoyaleGamesWon 1 is reported exactly for a win, and RoyaleWinStreak exactly for a
      win with a non-zero streak. */
  lemma WinEntries(data: PlayedGame, apiVersion: string)
    ensures Named(GameStats(data, apiVersion), "RoyaleGamesWon") <==> data.won
    ensures data.won ==> Statistic("RoyaleGamesWon", 1) in GameStats(data, apiVersion)
    ensures Named(GameStats(data, apiVersion), "RoyaleWinStreak") <==> data.won && Truthy(data.winStreak)
    ensures data.won && Truthy(data.winStreak) ==>
      Statistic("RoyaleWinStreak", data.winStreak.value) in GameStats(data, apiVersion)
  {
    NamedInGameStats(data, apiVersion, "RoyaleGamesWon");
    NamedInGameStats(data, apiVersion, "RoyaleWinStreak");
    var seg: seq<seq<Statistic>> := Segments(data, apiVersion);
    TrialNameDiffers(apiVersion);
    if data.won {
      assert seg[1][0].name == "RoyaleGamesWon";
      if Truthy(data.winStreak) {
        assert seg[1][1].name == "RoyaleWinStreak";
      }
    }
  }

  /** Trial games report DailyTrial and DailyTrial-<version>, royale games report
      RoyaleGamesPlayed, and no game reports both kinds. */
  lemma ModeEntries(data: PlayedGame, apiVersion: string)
    ensures Named(GameStats(data, apiVersion), "DailyTrial") <==> data.mode == Trial
    ensures Named(GameStats(data, apiVersion), "DailyTrial-" + apiVersion) <==> data.mode == Trial
    ensures data.mode == Trial ==> Statistic("DailyTrial", data.score) in GameStats(data, apiVersion)
    ensures data.mode == Trial ==> Statistic("DailyTrial-" + apiVersion, data.score) in GameStats(data, apiVersion)
    ensures Named(GameStats(data, apiVersion), "RoyaleGamesPlayed") <==> data.mode == Royale
    ensures data.mode == Royale ==> Statistic("RoyaleGamesPlayed", 1) in GameStats(data, apiVersion)
  {
    TrialEntries(data, apiVersion);
    RoyaleEntry(data, apiVersion);
  }

  lemma TrialEntries(data: PlayedGame, apiVersion: string)
    ensures Named(GameStats(data, apiVersion), "DailyTrial") <==> data.mode == Trial
    ensures Named(GameStats(data, apiVersion), "DailyTrial-" + apiVersion) <==> data.mode == Trial
    ensures data.mode == Trial ==> Statistic("DailyTrial", data.score) in GameStats(data, apiVersion)
    ensures data.mode == Trial ==> Statistic("DailyTrial-" + apiVersion, data.score) in GameStats(data, apiVersion)
  {
    NamedInGameStats(data, apiVersion, "DailyTrial");
    NamedInGameStats(data, apiVersion, "DailyTrial-" + apiVersion);
    var seg: seq<seq<Statistic>> := Segments(data, apiVersion);
    TrialNameDiffers(apiVersion);
    if data.mode == Trial {
      assert seg[2][0].name == "DailyTrial";
      assert seg[2][1].name == "DailyTrial-" + apiVersion;
    }
  }

  lemma RoyaleEntry(data: PlayedGame, apiVersion: string)
    ensures Named(GameStats(data, apiVersion), "RoyaleGamesPlayed") <==> data.mode == Royale
    ensures data.mode == Royale ==> Statistic("RoyaleGamesPlayed", 1) in GameStats(data, apiVersion)
  {
    NamedInGameStats(data, apiVersion, "RoyaleGamesPlayed");
    var seg: seq<seq<Statistic>> := Segments(data, apiVersion);
    TrialNameDiffers(apiVersion);
    if data.mode == Royale {
      assert seg[2][0].name == "RoyaleGamesPlayed";
    }
  }

  /** BirdsPast is reported exactly when it is non-zero. */
  lemma BirdsPastEntry(data: PlayedGame, apiVersion: string)
    ensures Named(GameStats(data, apiVersion), "BirdsPast") <==> Truthy(data.birdsPast)
    ensures Truthy(data.birdsPast) ==> Statistic("BirdsPast", data.birdsPast.value) in GameStats(data, apiVersion)
  {
    NamedInGameStats(data, apiVersion, "BirdsPast");
    var seg: seq<seq<Statistic>> := Segments(data, apiVersion);
    TrialNameDiffers(apiVersion);
    if Truthy(data.birdsPast) {
      assert seg[3][0].name == "BirdsPast";
    }
  }

  /** The versioned trial statistic is none of the fixed names. */
  lemma TrialNameDiffers(apiVersion: string)
    ensures var t := "DailyTrial-" + apiVersion;
      t != "TotalGamesPlayed" && t != "Score" && t != "Flaps" && t != "FirstPipeFails" && t != "RoyaleGamesWon"
      && t != "RoyaleWinStreak" && t != "DailyTrial" && t != "RoyaleGamesPlayed" && t != "BirdsPast"
  {
    var t := "DailyTrial-" + apiVersion;
    assert t[0] == 'D' && t[10] == '-';
  }

  // ---------------------------------------------------------------------------
  // The attire ids in the avatar URL

  /** `attire.map(a => a.id).join(",")`, the `ImageUrl` of `updateAttire`. */
  function AttireUrl(attire: seq<Attire>): (url: string)
    ensures attire == [] ==> url == ""
    ensures |attire| >= 1 && (forall i :: 0 <= i < |attire| ==> ',' !in attire[i].id) ==>
      Split(url, ',') == Ids(attire)
  {
    assert |attire| >= 1 && (forall i :: 0 <= i < |attire| ==> ',' !in attire[i].id) ==>
      Split(Join(Ids(attire), ","), ',') == Ids(attire) by {
      if |attire| >= 1 && (forall i :: 0 <= i < |attire| ==> ',' !in attire[i].id) {
        SplitJoin(Ids(attire), ',');
      }
    }
    Join(Ids(attire), ",")
  }

  function Ids(attire: seq<Attire>): (ids: seq<string>)
    ensures |ids| == |attire|
    ensures forall i :: 0 <= i < |ids| ==> ids[i] == attire[i].id
  {
    if attire == [] then [] else [attire[0].id] + Ids(attire[1..])
  }

  /** `_.keyBy(allAttire, "id")`: every key maps to an attire with that id. */
  predicate KeyedById(attireMap: map<string, Attire>)
  {
    forall k :: k in attireMap ==> attireMap[k].id == k
  }

  /** `attireMap[key]`, undefined for an unknown id. */
  function Lookup(attireMap: map<string, Attire>, key: string): (a: Option<Attire>)
    ensures a.Some? <==> key in attireMap
    ensures key in attireMap ==> a == Some(attireMap[key])
  {
    if key in attireMap then Some(attireMap[key]) else None
  }

  function LookupAll(attireMap: map<string, Attire>, keys: seq<string>): (r: seq<Option<Attire>>)
    ensures |r| == |keys|
    ensures forall i :: 0 <= i < |r| ==> r[i] == Lookup(attireMap, keys[i])
  {
    if keys == [] then [] else [Lookup(attireMap, keys[0])] + LookupAll(attireMap, keys[1..])
  }

  /** `avatarUrlToAttire`: split on "," and look every piece up. */
  function AvatarUrlToAttire(attireMap: map<string, Attire>, url: string): (r: seq<Option<Attire>>)
    ensures |r| >= 1
  {
    LookupAll(attireMap, Split(url, ','))
  }

  /** A non-empty outfit of known, comma-free ids decodes back to itself. */
  lemma AvatarUrlRoundTrip(attireMap: map<string, Attire>, attire: seq<Attire>)
    requires |attire| >= 1
    requires forall i :: 0 <= i < |attire| ==> ',' !in attire[i].id
    requires forall i :: 0 <= i < |attire| ==> attire[i].id in attireMap && attireMap[attire[i].id] == attire[i]
    ensures var r := AvatarUrlToAttire(attireMap, AttireUrl(attire));
      |r| == |attire| && forall i :: 0 <= i < |r| ==> r[i] == Some(attire[i])
  {
    SplitJoin(Ids(attire), ',');
  }

  /** The empty outfit is stored as "" and decodes to one unknown entry. */
  lemma EmptyOutfitDecodesToOneUnknown(attireMap: map<string, Attire>)
    requires KeyedById(attireMap)
    requires forall k :: k in attireMap ==> k != ""
    ensures AvatarUrlToAttire(attireMap, AttireUrl([])) == [None]
  {
  }

  /** Every decoded entry is the attire whose id is that piece of the URL. */
  lemma DecodedEntriesHaveTheirIds(attireMap: map<string, Attire>, url: string)
    requires KeyedById(attireMap)
    ensures var r := AvatarUrlToAttire(attireMap, url);
      forall i :: 0 <= i < |r| && r[i].Some? ==> r[i].value.id == Split(url, ',')[i]
  {
  }

  // ---------------------------------------------------------------------------
  // Leaderboards

  datatype LeaderboardResult = LeaderboardResult(name: string, attire: seq<Option<Attire>>, position: int,
                                                 score: int, userId: string)

  datatype Leaderboard = Leaderboard(results: seq<LeaderboardResult>, player: Option<LeaderboardResult>)

  /** No earlier entry of `xs` has the position of `xs[k]`, nor does any in `seen`. */
  predicate FirstOfPosition(xs: seq<LeaderboardResult>, seen: set<int>, k: int)
    requires 0 <= k < |xs|
  {
    xs[k].position !in seen && forall j :: 0 <= j < k ==> xs[j].position != xs[k].position
  }

  /** `_.uniqBy(xs, "position")`, with the positions already kept in `seen`. */
  function UniqByPosition(xs: seq<LeaderboardResult>, seen: set<int>): (r: seq<LeaderboardResult>)
    ensures |r| <= |xs|
    ensures forall i :: 0 <= i < |r| ==> r[i].position !in seen
    ensures forall i, j :: 0 <= i < j < |r| ==> r[i].position != r[j].position
  {
    if xs == [] then []
    else if xs[0].position in seen then UniqByPosition(xs[1..], seen)
    else [xs[0]] + UniqByPosition(xs[1..], seen + {xs[0].position})
  }

  /** Every kept entry is the first occurrence of its position in the input. */
  lemma {:induction false} KeptIsFirstOccurrence(xs: seq<LeaderboardResult>, seen: set<int>, i: nat) returns (k: nat)
    requires i < |UniqByPosition(xs, seen)|
    ensures k < |xs| && xs[k] == UniqByPosition(xs, seen)[i] && FirstOfPosition(xs, seen, k)
  {
    var p := xs[0].position;
    if p in seen {
      var k' := KeptIsFirstOccurrence(xs[1..], seen, i);
      k := k' + 1;
      assert xs[k] == xs[1..][k'];
      forall j | 0 <= j < k
        ensures xs[j].position != xs[k].position
      {
        if j > 0 {
          assert xs[j] == xs[1..][j - 1];
        }
      }
    } else if i == 0 {
      k := 0;
    } else {
      var k' := KeptIsFirstOccurrence(xs[1..], seen + {p}, i - 1);
      k := k' + 1;
      assert xs[k] == xs[1..][k'];
      forall j | 0 <= j < k
        ensures xs[j].position != xs[k].position
      {
        if j > 0 {
          assert xs[j] == xs[1..][j - 1];
        }
      }
    }
  }

  /** The kept entries stay in input order: of two kept entries, the earlier one comes
      from an earlier index. */
  lemma {:induction false} KeptInInputOrder(xs: seq<LeaderboardResult>, seen: set<int>, i: nat, j: nat) returns (ki: nat, kj: nat)
    requires i < j < |UniqByPosition(xs, seen)|
    ensures ki < kj < |xs|
    ensures xs[ki] == UniqByPosition(xs, seen)[i] && xs[kj] == UniqByPosition(xs, seen)[j]
  {
    var p := xs[0].position;
    if p in seen {
      var ki', kj' := KeptInInputOrder(xs[1..], seen, i, j);
      ki, kj := ki' + 1, kj' + 1;
      assert xs[ki] == xs[1..][ki'] && xs[kj] == xs[1..][kj'];
    } else {
      var rest := UniqByPosition(xs[1..], seen + {p});
      assert UniqByPosition(xs, seen) == [xs[0]] + rest;
      if i == 0 {
        var kj' := KeptIsFirstOccurrence(xs[1..], seen + {p}, j - 1);
        ki, kj := 0, kj' + 1;
        assert xs[kj] == xs[1..][kj'];
      } else {
        var ki', kj' := KeptInInputOrder(xs[1..], seen + {p}, i - 1, j - 1);
        ki, kj := ki' + 1, kj' + 1;
        assert xs[ki] == xs[1..][ki'] && xs[kj] == xs[1..][kj'];
      }
    }
  }

  /** Every first occurrence of a position not yet seen is kept. */
  lemma {:induction false} FirstOccurrenceIsKept(xs: seq<LeaderboardResult>, seen: set<int>, k: nat) returns (i: nat)
    requires k < |xs| && FirstOfPosition(xs, seen, k)
    ensures i < |UniqByPosition(xs, seen)| && UniqByPosition(xs, seen)[i] == xs[k]
  {
    var p := xs[0].position;
    if k == 0 {
      i := 0;
    } else {
      var seen' := if p in seen then seen else seen + {p};
      assert xs[1..][k - 1] == xs[k];
      assert FirstOfPosition(xs[1..], seen', k - 1) by {
        forall j | 0 <= j < k - 1
          ensures xs[1..][j].position != xs[k].position
        {
          assert xs[1..][j] == xs[j + 1];
        }
      }
      var i' := FirstOccurrenceIsKept(xs[1..], seen', k - 1);
      i := if p in seen then i' else i' + 1;
    }
  }

  /** Every position of the input outside `seen` is kept. */
  lemma UniqByCoversPositions(xs: seq<LeaderboardResult>, seen: set<int>, x: LeaderboardResult)
    requires x in xs && x.position !in seen
    ensures exists i :: 0 <= i < |UniqByPosition(xs, seen)| && UniqByPosition(xs, seen)[i].position == x.position
  {
    var k := FirstIndexOf(xs, x.position);
    var i := FirstOccurrenceIsKept(xs, seen, k);
  }

  /** The index of the first entry with position p. */
  function FirstIndexOf(xs: seq<LeaderboardResult>, p: int): (k: nat)
    requires exists x :: x in xs && x.position == p
    ensures k < |xs| && xs[k].position == p
    ensures forall j :: 0 <= j < k ==> xs[j].position != p
  {
    if xs[0].position == p then 0
    else
      assert exists x :: x in xs[1..] && x.position == p by {
        var x :| x in xs && x.position == p;
        assert x != xs[0];
      }
      1 + FirstIndexOf(xs[1..], p)
  }

  /** No entry before index k belongs to the player. */
  predicate NoneBefore(results: seq<LeaderboardResult>, playerId: Option<string>, k: int)
  {
    forall j :: 0 <= j < k && j < |results| ==> Some(results[j].userId) != playerId
  }

  /** `find(l => l.userId === playerId)`: the first entry of that user. */
  function FindPlayer(results: seq<LeaderboardResult>, playerId: Option<string>): (p: Option<LeaderboardResult>)
    ensures p.None? <==> forall i :: 0 <= i < |results| ==> Some(results[i].userId) != playerId
    ensures p.Some? ==> Some(p.value.userId) == playerId
    ensures p.Some? ==> exists k :: 0 <= k < |results| && results[k] == p.value && NoneBefore(results, playerId, k)
  {
    if results == [] then None
    else if Some(results[0].userId) == playerId then Some(results[0])
    else
      var p := FindPlayer(results[1..], playerId);
      if p.Some? then
        var k :| 0 <= k < |results[1..]| && results[1..][k] == p.value && NoneBefore(results[1..], playerId, k);
        assert results[k + 1] == p.value && NoneBefore(results, playerId, k + 1);
        p
      else p
  }

  /** `getTrialDeathLeaderboard` given the two fetched lists: the top three followed by
      the entries around the player, de-duplicated by position. */
  function TrialDeathLeaderboard(top: seq<LeaderboardResult>, around: seq<LeaderboardResult>,
                                 playerId: Option<string>): (board: Leaderboard)
    ensures forall i, j :: 0 <= i < j < |board.results| ==> board.results[i].position != board.results[j].position
    ensures board.player.Some? ==> board.player.value in board.results
  {
    var deduped := UniqByPosition(top + around, {});
    Leaderboard(deduped, FindPlayer(deduped, playerId))
  }

  /** Every position of either list appears on the board. */
  lemma DeathLeaderboardCoversPositions(top: seq<LeaderboardResult>, around: seq<LeaderboardResult>,
                                        playerId: Option<string>, x: LeaderboardResult)
    requires x in top + around
    ensures var board := TrialDeathLeaderboard(top, around, playerId);
      exists i :: 0 <= i < |board.results| && board.results[i].position == x.position
  {
    UniqByCoversPositions(top + around, {}, x);
    var board := TrialDeathLeaderboard(top, around, playerId);
    var i :| 0 <= i < |UniqByPosition(top + around, {})| && UniqByPosition(top + around, {})[i].position == x.position;
    assert board.results[i].position == x.position;
  }

  /** Every top-three entry survives the de-duplication: a position shared with the
      entries around the player keeps the top-three entry. */
  lemma TopEntriesSurvive(top: seq<LeaderboardResult>, around: seq<LeaderboardResult>, playerId: Option<string>)
    requires forall i, j :: 0 <= i < j < |top| ==> top[i].position != top[j].position
    ensures forall i :: 0 <= i < |top| ==> top[i] in TrialDeathLeaderboard(top, around, playerId).results
  {
    var xs := top + around;
    forall i | 0 <= i < |top|
      ensures top[i] in TrialDeathLeaderboard(top, around, playerId).results
    {
      assert xs[i] == top[i];
      assert FirstOfPosition(xs, {}, i);
      var j := FirstOccurrenceIsKept(xs, {}, i);
    }
  }
}
