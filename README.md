# Flappy Royale: the game's rules, verified

This project models, in Dafny, the deterministic rules inside the Flappy Royale game
and its cloud functions. It proves what those rules promise. Each module follows one
source file:

- **LootBox** (`functions/src/getItemFromLootBox.ts`):
  - `randPercent` and its draw ranges.
  - `tierForScore`, a score-banded cascade of up to four draws of `rand(1, 100)`. The
    draws are a roll oracle.
  - `getItemFromLootBoxStartingWith`. It tries the requested tier, walks down
    `[3, 2, 1, 0]` from there, then walks up `[1, 2, 3]`. It returns an item the player
    does not own. `_.sample` is a nondeterministic choice.
- **UserManager** (`src/user/userManager.ts`):
  - The local profile store, a class whose `storage` map is localStorage by key.
  - `changeSettings` with its "exactly one base" rule.
  - The cyclic royale seed index.
  - The append-only run log and the statistics folded over it.
  - The per-seed lives and high-score slots, with the falsy-zero difference between
    `getLives` and `addLives`.
- **SeedsApi** (`functions/src/index.ts`):
  - The twelve royale seed names.
  - The daily and hourly seed names of each environment. The hourly one ends in a
    stray `}`.
  - The ordered validation of a replay upload, and the document an accepted upload
    stores.
- **Utf8Zip** (`functions/src/index.ts`): the UTF-8 byte-string transform that
  `zippedObj` and `unzip` wrap around compression. It is UTF-8 as RFC 3629 defines it
  (section 3). It is proved to round-trip, and so is `unzip(zippedObj(x))`, assuming
  only that the opaque compressor and JSON codec invert themselves.
- **BattleScene** (`src/battle/Scene.ts`), a class with the scene's fields:
  - A sync of the bird's height is recorded every 400 ms.
  - Each ghost's action queue is drained up to the current time.
  - A finished run is stored when the URL hash names the player.
- **UserSettingsScene** (`src/menus/UserSettingsScene.ts`):
  - The attire click rule: one base, at most three clothes.
  - The style counter.
  - The play time broken into days, hours, minutes and seconds.
  - The rows of the statistics panel.
- **PlayFab** (`src/playFab.ts`):
  - The statistics list a finished game reports.
  - The comma-joined attire ids of the avatar URL and their decoding.
  - The de-duplicated death leaderboard.
- **PipeManager** (`src/battle/PipeManager.ts`):
  - The pipe gap that narrows with the score, and the hole slot.
  - The four sprites of a row.
  - `pipeOutOfBoundsCheck`.
- **RoyaleLobby** (`src/menus/RoyaleLobby.ts`): `pad`.
- **AttireScript** (`src/scripts/validateAttireAndBasesAreInGame.ts`):
  - The id and entry printed for an image.
  - `camelToKebab` and `kebabToCamel`.
  - Which folders are checked against which set file.

Several modules support the others:

- `Attires`: the attire record and its base/clothes filters.
- `Replays`: the recorded-run records.
- `Strings`: the JavaScript string operations used (template-literal numbers, `join`,
  `split`, `indexOf`, first-occurrence `replace`, `endsWith`, ASCII case mapping,
  `path.basename`).
- `Wrappers`: `Option`, where `None` stands for `undefined`.

## Model

| member | source | states |
|---|---|---|
| LootBox.RandPercentHasOneWinner | functions/src/getItemFromLootBox.ts:5-23 | exactly one draw of `rand(0, max)` makes `randPercent` true, so its chance is 1/(max+1) |
| LootBox.RandPercent | functions/src/getItemFromLootBox.ts:5-23 | only a draw in `0..max` can make it true |
| LootBox.RandPercentMatchesNominal | functions/src/getItemFromLootBox.ts:5-23 | for 50, 25, 12.5, 5, 1 and 0.5 the chance is the percentage asked for |
| LootBox.RandPercentMisses | functions/src/getItemFromLootBox.ts:15-20 | as written, `randPercent(2.5)` is true 10% of the time and `randPercent(1.5)` 1/150 of the time, not the percentages asked for |
| LootBox.IntendedRandPercentMatchesNominal | functions/src/getItemFromLootBox.ts:5-23 | with the two cases corrected, every percentage is met exactly |
| LootBox.TierForScore | functions/src/getItemFromLootBox.ts:28-54 | at most four draws; no tier and no draw below score 1; only tier 0 or none for 1 ≤ score < 2; tier 3 for score ≥ 30 when the first draw is ≤ 10, whatever follows |
| LootBox.Band | functions/src/getItemFromLootBox.ts:29-48 | one to four draws; the k-th draw that hits gives tier 4−k; no tier exactly when all four draws miss their thresholds |
| LootBox.TierForScoreFirstHitWins | functions/src/getItemFromLootBox.ts:29-48 | for scores ≥ 2: tier 3−k after k+1 draws exactly when draw k is under its threshold and every earlier draw was over its own; no tier exactly when all four miss |
| LootBox.TierForScoreUsesOnlyItsDraws | functions/src/getItemFromLootBox.ts:28-54 | two roll oracles that agree on the draws used give the same outcome |
| LootBox.FindTable | functions/src/getItemFromLootBox.ts:63 | the result is a table with that id; None exactly when no table has it |
| LootBox.Unowned | functions/src/getItemFromLootBox.ts:70 | a node is kept exactly when the player does not own its item |
| LootBox.AvailableMeansUnowned | functions/src/getItemFromLootBox.ts:61-76 | a node is available for a tier exactly when the tier's table exists, holds the node, and the item is not owned |
| LootBox.WalkOrder | functions/src/getItemFromLootBox.ts:80-97 | the tiers tried: the initial tier, then initial, initial−1, …, 0, then 1, 2, 3 |
| LootBox.IndexOf | functions/src/getItemFromLootBox.ts:85 | `indexOf` gives the first index holding the tier |
| LootBox.FirstIn | functions/src/getItemFromLootBox.ts:86-97 | the first index of the order whose tier is stocked, None when none is |
| LootBox.WalkSettlesAt | functions/src/getItemFromLootBox.ts:80-97 | when the k-th tier tried is the first stocked one, the walk returns it |
| LootBox.GetItemForTableID | functions/src/getItemFromLootBox.ts:61-76 | None exactly when the tier has no available node; otherwise one of its available nodes |
| LootBox.GetItemFromLootBoxStartingWith | functions/src/getItemFromLootBox.ts:56-100 | None for tier −1; otherwise None exactly when the walk finds no stocked tier, and an available node of the tier it settles on when it does |
| LootBox.WalkOrderCoversAllTiers | functions/src/getItemFromLootBox.ts:84-97 | every tier 0..3 is tried, whatever the initial tier |
| LootBox.NoItemIffAllTiersExhausted | functions/src/getItemFromLootBox.ts:84-99 | the walk comes up empty exactly when no tier 0..3 has an unowned node |
| LootBox.GrantedItemIsUnowned | functions/src/getItemFromLootBox.ts:69-75 | the granted item is not in the player's inventory |
| LootBox.WalkPicksNearestBelowThenNearestAbove | functions/src/getItemFromLootBox.ts:83-97 | the tier chosen is the highest stocked tier at or below the initial one; failing that, the lowest stocked tier above it |
| LootBox.RequestedTierServedFirst | functions/src/getItemFromLootBox.ts:80-81 | when the initial tier has an unowned node, the item comes from that tier |
| Attires.Bases | src/user/userManager.ts:66 | `filter(a => a.base)`: exactly the base items |
| Attires.Clothes | src/menus/UserSettingsScene.ts:56 | `filter(a => !a.base)`: exactly the clothing items |
| Attires.BasesAndClothesPartition | src/menus/UserSettingsScene.ts:143 | every item is a base or clothing, so the two filters' lengths add up to the whole |
| UserManager.DefaultSettings | src/user/userManager.ts:41-50 | the default name is "Flappy_", the number, then the character '1'; the attire is the default attire and the seed index is −1 |
| UserManager.Merge | src/user/userManager.ts:59-73 | an empty patch changes nothing; the name and the attire are each the stored one or the patch's |
| UserManager.MergeReplacesOnlyPresentFields | src/user/userManager.ts:59-73 | each field present in the patch replaces the stored one, and each absent field is kept |
| UserManager.AcceptedMergeKeepsOneBase | src/user/userManager.ts:65-70 | an accepted patch keeps a one-base profile a one-base profile |
| UserManager.MergeIdempotent | src/user/userManager.ts:59-73 | applying the same patch twice is applying it once |
| UserManager.NextSeedIndex | src/user/userManager.ts:103-104 | one more than the last index while that is below the cap, 0 once it reaches the cap |
| UserManager.NextSeedIndexInRange | src/user/userManager.ts:98-108 | an index in −1..cap−1 moves to one in 0..cap−1 |
| UserManager.SeedIndexCycles | src/user/userManager.ts:99-108 | from the default −1, the k-th bump returns (k−1) mod cap, so the first returns 0 |
| UserManager.BestScore | src/user/userManager.ts:125-127 | the best score starts at 0 and is never negative |
| UserManager.BestScoreBounds | src/user/userManager.ts:125-127 | at least every score; 0 or one of the scores |
| UserManager.BestPosition | src/user/userManager.ts:129-130 | the best position starts at 500 and never exceeds it |
| UserManager.BestPositionBounds | src/user/userManager.ts:129-130 | at most every position; 500 or one of the positions |
| UserManager.RoyaleWins | src/user/userManager.ts:132-133 | at most the run count |
| UserManager.RoyaleWinsZero | src/user/userManager.ts:132-133 | 0 exactly when no run has position 0 |
| UserManager.InstaDeaths | src/user/userManager.ts:138-139 | at most the run count |
| UserManager.InstaDeathsZero | src/user/userManager.ts:138-139 | 0 exactly when no run has score 0 |
| UserManager.StatisticsOf | src/user/userManager.ts:111-152 | games played is the run count; crashes + wins = games played, so crashes ≥ 0 |
| UserManager.StatisticsAfterOneMoreRun | src/user/userManager.ts:125-146 | one more run moves each statistic by that run alone (max, min, counts and sums) |
| UserManager.LivesReadersDisagreeOnlyOnZero | src/user/userManager.ts:156-201 | `getLives` and `addLives` read the same count except when 0 is stored: then the first reports 0 and the second starts from 10 |
| UserManager.SubtractFromZeroLeavesNine | src/user/userManager.ts:190-201 | taking a life from a seed with 0 lives stored leaves 9 |
| UserManager.UserStore.constructor | src/user/userManager.ts:41-50 | an empty store whose defaults are `defaultSettings` |
| UserManager.UserStore.ChangeSettings | src/user/userManager.ts:59-73 | a patch whose attire does not hold exactly one base gives the error and saves nothing; otherwise the merged profile is saved and nothing else changes |
| UserManager.UserStore.GetAndBumpUserCycleSeedIndex | src/user/userManager.ts:99-108 | returns the next index from the stored one (−1 when there are no royale settings) and saves it, leaving the rest of the profile alone |
| UserManager.UserStore.RecordGamePlayed | src/user/userManager.ts:90-96 | the stored runs become the old runs plus the new one at the end |
| UserManager.UserStore.GetUserStatistics | src/user/userManager.ts:111-152 | the loop over the runs computes `StatisticsOf` of the stored runs |
| UserManager.UserStore.GetLives | src/user/userManager.ts:156-169 | returns the stored count, 0 included, or 10; afterwards the lives table holds that seed alone |
| UserManager.UserStore.AddLives | src/user/userManager.ts:192-201 | returns (stored count, or 10 when missing or 0) + val and saves it as the only entry |
| UserManager.UserStore.SubtractALife | src/user/userManager.ts:190 | `addLives(seed, -1)` |
| UserManager.UserStore.GetHighScore | src/user/userManager.ts:171-182 | returns the stored score or 0, and writes `{seed: 0}` exactly when that is 0 |
| UserManager.UserStore.SetHighScore | src/user/userManager.ts:184-188 | overwrites without comparing and drops the other seeds |
| SeedsApi.HourlySeed | functions/src/index.ts:24-27 | the hourly seed ends in the stray '}' of the template |
| SeedsApi.RoyaleSeeds | functions/src/index.ts:46 | twelve names; the i-th is `version-royale-i` |
| SeedsApi.RoyaleSeedsDistinct | functions/src/index.ts:46 | the twelve royale names are pairwise different |
| SeedsApi.DailySeedShiftsTheDay | functions/src/index.ts:18-21 | an offset only adds to the day field, with no month rollover |
| SeedsApi.DailySeedsDiffer | functions/src/index.ts:18-21 | different offsets give different daily seeds |
| SeedsApi.HourlySeedsDiffer | functions/src/index.ts:24-27 | different offsets give different hourly seeds |
| SeedsApi.DailySeed | functions/src/index.ts:18-21 | a daily seed starts with the API version and a dash |
| SeedsApi.Seeds | functions/src/index.ts:47-56 | twelve royale seeds, and every seed handed out starts with the API version and a dash |
| SeedsApi.EnvironmentSeedsDiffer | functions/src/index.ts:47-56 | dev, staging and production get three different daily and three different hourly seeds |
| SeedsApi.ValidateUpload | functions/src/index.ts:75-86 | each 400 message is returned exactly when its field is the first missing one in the order uuid, version, data, mode (mode 0 counts as missing); none exactly when all are there |
| SeedsApi.ValidationIgnoresSeed | functions/src/index.ts:73-86 | the seed is never checked |
| SeedsApi.AddReplayToSeed | functions/src/index.ts:71-109 | the answer is 400 exactly when validation fails, and its body is the validation's message |
| SeedsApi.FirstUploadStoresOnlyIt | functions/src/index.ts:96-99 | with no document for the seed, the stored document unzips to exactly `[data]` |
| SeedsApi.LaterUploadMergesStoredReplays | functions/src/index.ts:100-104 | with a stored document, the merge receives exactly the replays that were stored |
| Utf8Zip.EncodeChar | functions/src/index.ts:144 | 1 to 4 bytes; 1 exactly for ASCII; every byte after the first is a continuation byte |
| Utf8Zip.Encode | functions/src/index.ts:144 | between one and four bytes per character |
| Utf8Zip.DecodeFirstOfEncoded | functions/src/index.ts:132 | decoding a character's encoding gives it back and consumes exactly its bytes |
| Utf8Zip.DecodeEncode | functions/src/index.ts:132 | decoding inverts encoding for every string |
| Utf8Zip.EncodedDecodedFirst | functions/src/index.ts:132 | well-formed leading bytes are the encoding of the character they decode to |
| Utf8Zip.EncodeDecode | functions/src/index.ts:132 | encoding inverts decoding, so each string has one UTF-8 form |
| Utf8Zip.BinaryString | functions/src/index.ts:144 | one character per byte, its code the byte |
| Utf8Zip.BytesOf | functions/src/index.ts:132 | bytes exactly when every code is below 256, and they give the string back |
| Utf8Zip.BytesOfBinaryString | functions/src/index.ts:132 | reading a byte string gives back its bytes |
| Utf8Zip.Utf8Escape | functions/src/index.ts:144 | `unescape(encodeURIComponent(s))` has only codes below 256 |
| Utf8Zip.Utf8UnescapeEscape | functions/src/index.ts:132 | `decodeURIComponent(escape(unescape(encodeURIComponent(s))))` is s |
| Utf8Zip.AsciiEscapesToItself | functions/src/index.ts:144 | ASCII text is its own byte string |
| Utf8Zip.Unzip | functions/src/index.ts:121-124 | an absent or empty input throws; the other outcomes are stated by the `UnzipOf…` and `UnzipThrowsOnlyOnInputOrBytes` lemmas below |
| Utf8Zip.UnzipZippedObj | functions/src/index.ts:121-147 | for a lawful compressor and JSON codec, `unzip(zippedObj(x))` returns x |
| Utf8Zip.UnzipOfUninflatable | functions/src/index.ts:126-139 | a non-empty input that does not inflate gives `undefined`, not an exception |
| Utf8Zip.UnzipOfUnparsable | functions/src/index.ts:133-139 | bytes that decode to text that is not JSON give `undefined`: the parse failure is caught |
| Utf8Zip.UnzipOfMalformedBytes | functions/src/index.ts:126-132 | inflated text with a code above 255, or starting with a UTF-8 continuation byte, makes `decodeURIComponent` throw, outside both `try` blocks |
| Utf8Zip.UnzipThrowsOnlyOnInputOrBytes | functions/src/index.ts:121-139 | `unzip` throws exactly for an absent or empty input or undecodable bytes; otherwise it returns `undefined` exactly when parsing fails |
| BattleScene.DueCount | src/battle/Scene.ts:218 | the actions consumed are the longest prefix with timestamps before the adjusted time |
| BattleScene.Apply | src/battle/Scene.ts:218-225 | a flap adds one flap and keeps the height; a sync with a value moves the ghost there; a sync without one changes nothing |
| BattleScene.FlapCountSnoc | src/battle/Scene.ts:218-225 | one more action adds one flap exactly when it is a flap |
| BattleScene.Play | src/battle/Scene.ts:218-225 | the ghost flaps once per flap among the actions |
| BattleScene.DrainedKeepsSuffix | src/battle/Scene.ts:216-226 | a frame changes only the queue, and leaves a suffix of it |
| BattleScene.Advanced | src/battle/Scene.ts:216-226 | a run without actions leaves its ghost alone; the ghost never loses flaps |
| BattleScene.RunsFor | src/battle/Scene.ts:135-147 | the store's runs for the seed when it has data, [] when the data lacks the seed, the current runs when there is no data |
| BattleScene.DrainedQueueIsNotDue | src/battle/Scene.ts:216-226 | afterwards the queue is empty or its head is not yet due |
| BattleScene.PlayConcat | src/battle/Scene.ts:218-225 | consuming two lists of actions in turn is consuming them together |
| BattleScene.DueCountMonotone | src/battle/Scene.ts:218 | a later frame consumes at least as many actions |
| BattleScene.DrainIdempotent | src/battle/Scene.ts:216-226 | a second frame at the same time consumes nothing and leaves the ghost alone |
| BattleScene.TwoFramesDrainAsOne | src/battle/Scene.ts:216-226 | frames at t1 ≤ t2 leave the queue as one frame at t2 does |
| BattleScene.TwoFramesAdvanceAsOne | src/battle/Scene.ts:216-226 | frames at t1 ≤ t2 leave the ghost as one frame at t2 does: no action lost or replayed |
| BattleScene.Recording | src/battle/Scene.ts:249-254 | the stored run is named by the hash without its first character and carries the user input |
| BattleScene.ShouldStore | src/battle/Scene.ts:248 | a run is stored only with a non-empty hash and at least five inputs |
| BattleScene.BattleScene.constructor | src/battle/Scene.ts:54-64 | the seed is the given one, or "12345" when absent or empty; the rng comes from it; no input and no ghosts |
| BattleScene.BattleScene.ResetGame | src/battle/Scene.ts:239-242 | a fresh rng from the seed, and the user input emptied |
| BattleScene.BattleScene.Create | src/battle/Scene.ts:135-147 | the recorded input is the store's runs for the seed, or none; one ghost per recorded run |
| BattleScene.BattleScene.FlapPressed | src/battle/Scene.ts:153-156 | a flap at the adjusted time is appended to the user input |
| BattleScene.BattleScene.DrainActions | src/battle/Scene.ts:218-225 | the inner loop shifts off exactly the due prefix and plays exactly those actions on the ghost |
| BattleScene.BattleScene.DrainRun | src/battle/Scene.ts:216-226 | a run without actions is skipped; otherwise it is drained and its ghost advanced |
| BattleScene.BattleScene.DrainAll | src/battle/Scene.ts:216-226 | every run is drained and every ghost advanced to the same time |
| BattleScene.BattleScene.Update | src/battle/Scene.ts:203-226 | a sync is appended and the sync time moves exactly when `syncInterval` has passed; each recorded run is drained and its ghost advanced to the adjusted time |
| BattleScene.BattleScene.RestartTheGame | src/battle/Scene.ts:244-261 | stores the run exactly when the hash is non-empty and there are more than 4 inputs; throws, changing nothing, when that happens with no data store; otherwise resets the rng and the input, and `scene.restart()` runs `create` again: the recorded runs are reloaded from the store and every ghost starts afresh |
| BattleScene.BattleScene.ConfigureDataStore | src/battle/Scene.ts:70-75 | adopts the store and its API version, then restarts: the recorded runs become the store's runs for the seed and each gets a fresh ghost; the sync clock is untouched |
| UserSettingsScene.WithoutId | src/menus/UserSettingsScene.ts:155 | keeps exactly the items with another id, never adds one |
| UserSettingsScene.WithoutIdAppend | src/menus/UserSettingsScene.ts:155 | filtering a concatenation filters each part, so order and repeats of the kept items survive |
| UserSettingsScene.WithoutIdKeepsOthers | src/menus/UserSettingsScene.ts:155 | an outfit without the id is returned unchanged |
| UserSettingsScene.ClickAttire | src/menus/UserSettingsScene.ts:136-157 | the click is refused exactly when it would add a fourth clothing item |
| UserSettingsScene.ClickBaseReplacesBase | src/menus/UserSettingsScene.ts:141-144 | clicking a base wears it first, followed by the current clothes in their order: one base |
| UserSettingsScene.ClickUnwornAddsUpToThree | src/menus/UserSettingsScene.ts:146-152 | an unworn item is appended exactly when fewer than three clothes are worn; otherwise nothing is saved |
| UserSettingsScene.ClickWornRemoves | src/menus/UserSettingsScene.ts:153-156 | clicking a worn item takes off every entry with its id and keeps all others |
| UserSettingsScene.WithoutClothingId | src/menus/UserSettingsScene.ts:153-156 | taking off clothing leaves the bases as they were and does not add clothes |
| UserSettingsScene.ClickKeepsOutfitValid | src/menus/UserSettingsScene.ts:136-157 | every click keeps exactly one base and at most three clothes |
| UserSettingsScene.StyleCount | src/menus/UserSettingsScene.ts:56-61 | the counter reads "n/3" for n clothes |
| UserSettingsScene.StyleCountAtMostThree | src/menus/UserSettingsScene.ts:56-61 | an outfit with at most three clothes shows "0/3", "1/3", "2/3" or "3/3" |
| UserSettingsScene.ClickedStyleCount | src/menus/UserSettingsScene.ts:56-61 | after any click on a valid outfit the counter reads at most "3/3" |
| UserSettingsScene.PlayTimeBreakdown | src/menus/UserSettingsScene.ts:207-214 | hours < 24, minutes < 60, seconds < 60, and 86400d + 3600h + 60m + s = floor(totalTime / 1000) |
| UserSettingsScene.NonZero | src/menus/UserSettingsScene.ts:216 | keeps every non-zero part and only those |
| UserSettingsScene.NonZeroAppend | src/menus/UserSettingsScene.ts:216 | filtering a concatenation filters each part, so the kept parts stay in order |
| UserSettingsScene.PlayTimeText | src/menus/UserSettingsScene.ts:216-227 | the play time is empty exactly when days, hours, minutes and seconds are all 0 |
| UserSettingsScene.PlayTimeSuffix | src/menus/UserSettingsScene.ts:216-227 | the play time ends in "s" exactly when one of the four parts is non-zero |
| UserSettingsScene.PresentationRows | src/menus/UserSettingsScene.ts:220-233 | the "Royale Wins" row is shown exactly when the wins are not 0, and the "Best Position" row exactly when the position is not 0 |
| UserSettingsScene.Presentation | src/menus/UserSettingsScene.ts:220-233 | six to eight rows; the top score comes first of the fixed six, and play time and flaps are the last two |
| UserSettingsScene.ShowsWinsOrBestPosition | src/menus/UserSettingsScene.ts:231-233 | for runs with non-negative positions, exactly one of the two rows is shown |
| PlayFab.PlayedGameStats | src/playFab.ts:86-143 | the pushes build the statistics list `GameStats` |
| PlayFab.NamedInGameStats | src/playFab.ts:86-143 | a name is reported exactly when it is one of the fixed three or in one of the optional parts |
| PlayFab.GameStatsShape | src/playFab.ts:86-143 | TotalGamesPlayed 1, Score and Flaps come first, in that order; 3 to 9 entries |
| PlayFab.FirstPipeFailsIffScoreZero | src/playFab.ts:101-106 | FirstPipeFails 1 is reported exactly when the score is 0 |
| PlayFab.WinEntries | src/playFab.ts:108-120 | RoyaleGamesWon 1 exactly for a win; RoyaleWinStreak exactly for a win with a non-zero streak |
| PlayFab.ModeEntries | src/playFab.ts:122-136 | DailyTrial and DailyTrial-version exactly in trial mode; RoyaleGamesPlayed exactly in royale mode; never both |
| PlayFab.BirdsPastEntry | src/playFab.ts:138-143 | BirdsPast is reported exactly when it is non-zero |
| PlayFab.TrialNameDiffers | src/playFab.ts:128 | the versioned trial name is none of the other names |
| PlayFab.Ids | src/playFab.ts:171 | the ids of the attire, in order |
| PlayFab.AttireUrl | src/playFab.ts:171 | the empty outfit gives ""; for a non-empty outfit of comma-free ids, splitting on "," gives the ids back |
| PlayFab.Lookup | src/playFab.ts:303 | an attire exactly when the id is a key, and then the attire stored under it |
| PlayFab.LookupAll | src/playFab.ts:303 | one lookup per piece, in order |
| PlayFab.AvatarUrlToAttire | src/playFab.ts:302-304 | at least one entry, since `split` always gives one piece |
| PlayFab.AvatarUrlRoundTrip | src/playFab.ts:302-304 | a non-empty outfit of known, comma-free ids, joined by ",", decodes to itself |
| PlayFab.EmptyOutfitDecodesToOneUnknown | src/playFab.ts:302-304 | the empty outfit is stored as "" and decodes to one undefined entry |
| PlayFab.DecodedEntriesHaveTheirIds | src/playFab.ts:301-304 | each decoded entry has the id of its piece of the URL |
| PlayFab.UniqByPosition | src/playFab.ts:227 | no longer than the input, and no two entries share a position |
| PlayFab.KeptIsFirstOccurrence | src/playFab.ts:227 | every kept entry is the first of its position in the input |
| PlayFab.FirstOccurrenceIsKept | src/playFab.ts:227 | every first occurrence of a position is kept |
| PlayFab.KeptInInputOrder | src/playFab.ts:227 | kept entries stay in input order: the earlier of two kept entries comes from an earlier index |
| PlayFab.UniqByCoversPositions | src/playFab.ts:227 | every position of the input is on the result |
| PlayFab.FindPlayer | src/playFab.ts:229 | the first entry with the player's user id; None exactly when no entry has it |
| PlayFab.TrialDeathLeaderboard | src/playFab.ts:210-232 | positions on the board are distinct, and the player, when found, is on the board |
| PlayFab.DeathLeaderboardCoversPositions | src/playFab.ts:226-231 | every position of the top three and of the entries around the player is on the board |
| PlayFab.TopEntriesSurvive | src/playFab.ts:226-227 | every top-three entry stays on the board, even when the player's neighbours share its position |
| PipeManager.GapIsBaseBelowTwenty | src/battle/PipeManager.ts:19 | below score 20 the gap is the base gap |
| PipeManager.GapHeight | src/battle/PipeManager.ts:19 | for non-negative scores the gap is at most 6 below the base gap and never above it |
| PipeManager.GapNarrowsByOnePerTwenty | src/battle/PipeManager.ts:19 | each full 20 points narrow the gap by one, up to 6 |
| PipeManager.GapNeverBelowSixLess | src/battle/PipeManager.ts:19 | for non-negative scores the gap is between the base minus 6 and the base |
| PipeManager.GapNeverWidens | src/battle/PipeManager.ts:19 | a higher score never gives a wider gap |
| PipeManager.HoleSlot | src/battle/PipeManager.ts:24 | for a draw in [0, 1) the slot is 1 to 5 |
| PipeManager.HoleSlotReaches | src/battle/PipeManager.ts:7-24 | each of slots 1 to 5 is drawn, so slots 6 and 7 of the seven never are |
| PipeManager.Round | src/battle/PipeManager.ts:25-38 | `Math.round`: the nearest integer, halves rounded up |
| PipeManager.HoleTop | src/battle/PipeManager.ts:25-38 | the hole's top is within half a pixel of the centre minus half the gap |
| PipeManager.HoleBottom | src/battle/PipeManager.ts:25-38 | the hole's bottom is within half a pixel of the centre plus half the gap |
| PipeManager.HoleTopAtMostBottom | src/battle/PipeManager.ts:25-38 | the hole's top is not below its bottom while the gap is not negative |
| PipeManager.AddRowOfPipes | src/battle/PipeManager.ts:40-54 | four sprites: top cap, top body 5 above it, bottom cap, bottom body at the window height scaled to reach the cap; all at x; top cap above bottom cap |
| PipeManager.Sweep | src/battle/PipeManager.ts:68-76 | what stays on the array plus what is destroyed never outnumbers the input; groups can be lost, shifted off without being destroyed |
| PipeManager.OffScreen | src/battle/PipeManager.ts:71 | a group counts as off screen only when its first sprite is left of x 0 |
| PipeManager.PipeOutOfBoundsCheck | src/battle/PipeManager.ts:68-76 | the loop with `shift` inside it does what `Sweep` describes |
| PipeManager.SweepShiftsFromTheFront | src/battle/PipeManager.ts:68-76 | the array only loses groups from its front, one per destroyed group |
| PipeManager.OnlyFrontOffScreenIsPruned | src/battle/PipeManager.ts:68-76 | when only the front group is off screen, it is destroyed and the rest kept |
| PipeManager.AllOnScreenIsUntouched | src/battle/PipeManager.ts:68-76 | with every group on screen nothing changes |
| PipeManager.SweepOfThreeOffScreenGroups | src/battle/PipeManager.ts:68-76 | groups at x −100, −90, −80: the first and third are destroyed; the second is shifted off the array without being destroyed, so it is lost; the destroyed third stays on the array |
| PipeManager.Pruned | src/battle/PipeManager.ts:68-76 | the kept groups are on screen, the destroyed ones off screen, and together they number the input |
| PipeManager.PrunedPartitions | src/battle/PipeManager.ts:68-76 | kept and destroyed groups are, as multisets, exactly the input |
| PipeManager.PruneOffScreenPipes | src/battle/PipeManager.ts:68-76 | the corrected check computes `Pruned` |
| RoyaleLobby.PadText | src/menus/RoyaleLobby.ts:158 | a non-empty pad text: the given one, or "0" when absent or empty |
| RoyaleLobby.Pad | src/menus/RoyaleLobby.ts:159-160 | ends with the number's text; unchanged when it is at least `width` long; otherwise `width − len` copies of the pad text before it |
| RoyaleLobby.PadNumber | src/menus/RoyaleLobby.ts:157-161 | the padded text ends with the number, and is the number alone when it is already `width` long |
| RoyaleLobby.PadLength | src/menus/RoyaleLobby.ts:160 | with a one-character pad text the result is exactly `width` long unless the number's text is longer |
| RoyaleLobby.PadIsPadText | src/menus/RoyaleLobby.ts:160 | the padding is made of the pad character only |
| RoyaleLobby.PadIdempotent | src/menus/RoyaleLobby.ts:157-161 | padding twice with a one-character pad text pads once |
| RoyaleLobby.PadSevenToThree | src/menus/RoyaleLobby.ts:157-161 | `pad(7, 3)` is "007" |
| AttireScript.ImgToJSON | src/scripts/validateAttireAndBasesAreInGame.ts:8-22 | as written, every entry's base field is "true" |
| AttireScript.IntendedImgToJSON | src/scripts/validateAttireAndBasesAreInGame.ts:8-22 | the corrected entry: base "true" exactly for a base, every other field as written |
| AttireScript.ClothingEmittedAsBase | src/scripts/validateAttireAndBasesAreInGame.ts:18 | a clothing image is printed as a base as written, and not once corrected |
| AttireScript.ImageIdOfName | src/scripts/validateAttireAndBasesAreInGame.ts:9-12 | "<a> <b>.png" gets the id "<a>_<b>": only the first space becomes '_' and ".png" goes |
| AttireScript.ImageIdIsLowercase | src/scripts/validateAttireAndBasesAreInGame.ts:9-12 | an id is no longer than its name and has no capital letter |
| AttireScript.ReplaceFirstKeepsLower | src/scripts/validateAttireAndBasesAreInGame.ts:11-12 | replacing with a no longer, capital-free text keeps a capital-free text as short |
| AttireScript.MissingImages | src/scripts/validateAttireAndBasesAreInGame.ts:25-28 | exactly the ".png" images that the set file does not mention |
| AttireScript.CheckFolder | src/scripts/validateAttireAndBasesAreInGame.ts:24-34 | one corrected entry per missing image, in order; a base exactly when the folder path mentions "base" |
| AttireScript.CheckFolderAsWritten | src/scripts/validateAttireAndBasesAreInGame.ts:24-34 | as written, one entry per missing image, every one marked a base |
| AttireScript.CheckFolderDiffersOnlyInBase | src/scripts/validateAttireAndBasesAreInGame.ts:24-34 | the as-written and corrected listings differ only in the base field, and agree exactly when the folder path mentions "base" |
| AttireScript.CamelToKebab | src/scripts/validateAttireAndBasesAreInGame.ts:37-39 | the output has no upper-case ASCII letter |
| AttireScript.KebabToCamel | src/scripts/validateAttireAndBasesAreInGame.ts:41-43 | no longer than the input; no '-' followed by a lower-case letter is left; the first character is kept or upper-cased |
| AttireScript.InsertDashes | src/scripts/validateAttireAndBasesAreInGame.ts:38 | inserting dashes never shortens the name |
| AttireScript.CamelKebabRoundTrip | src/scripts/validateAttireAndBasesAreInGame.ts:37-43 | `kebabToCamel(camelToKebab(s))` is s for every camel-case name |
| AttireScript.SetFileFor | src/scripts/validateAttireAndBasesAreInGame.ts:45-50 | None exactly for paths containing "." or "set-logos"; otherwise a name ending in "AttireSet.ts" whose stem has no '-' before a lower-case letter |
| AttireScript.ContainsDot | src/scripts/validateAttireAndBasesAreInGame.ts:46 | `includes(".")` tests for a '.' character |
| AttireScript.BasenameOfChild | src/scripts/validateAttireAndBasesAreInGame.ts:49 | the base name of "dir/name" is name |
| AttireScript.FolderChecksItsSetFile | src/scripts/validateAttireAndBasesAreInGame.ts:45-50 | a folder "dir/kebab-name" outside the skipped paths is checked against the camel-case name plus "AttireSet.ts" |
| Strings.IntToString | functions/src/index.ts:20 | a number prints as at least one character, with a leading '-' exactly when negative |
| Strings.NatToStringInjective | functions/src/index.ts:46 | different numbers print differently |
| Strings.Split | src/playFab.ts:303 | `split` always gives at least one piece |
| Strings.SplitJoin | src/playFab.ts:171 | splitting a join of separator-free parts gives back the parts |
| Strings.IndexOf | src/scripts/validateAttireAndBasesAreInGame.ts:11 | the first index where the pattern occurs, or None when it occurs nowhere |
| Strings.ToLowerAscii | src/scripts/validateAttireAndBasesAreInGame.ts:10 | each character is lower-cased in place |
| Strings.Basename | src/scripts/validateAttireAndBasesAreInGame.ts:15 | the text after the last '/': no '/' in it, and the path ends with it |
| Strings.Repeat | src/menus/RoyaleLobby.ts:160 | k copies of the text: k times its length |

## Left out

- Phaser rendering, physics and animation are not modelled: sprites, flap velocity,
  `rotateSprite`/`remapClamped`, tweens, world-bounds callbacks and
  `nudgePipesOntoPixelGrid`. A ghost is its height and its number of flaps. A pipe
  sprite is its texture, position and vertical scale.
- PipeManager.AddRowOfPipes: only the ordering of the hole edges is stated, not their
  exact pixel values. Those come from fractional intervals, `Math.round` and
  floating-point arithmetic, which the model does with exact reals.
- PipeManager.PipeOutOfBoundsCheck: modelled on values. It returns the array left
  behind and the groups destroyed. It does not shift a shared array in place, so
  aliasing with the scene's `pipes` field is not captured.
- `src/constants.ts`, `GameMode` and `APIVersion` are not part of this model:
  - The game-area height, base gap and top offset are parameters (`Layout`).
  - The API version is a parameter.
  - A mode is `Trial`, `Royale` or any other.
- DOM construction and event wiring (`makeClickableAttire`, `showUser`, the statistics
  HTML) are UI only. The panel is modelled as its ordered rows.
- The PlayFab SDK calls, promises and module-level login state are foreign calls.
  `getTrialLobbyLeaderboard` is kept only as its `find` (`FindPlayer`).
- Firestore, `cors` and the HTTP request and response objects are I/O. The handler
  is modelled given the seed's current document.
- `processNewRecording` is not part of this model. It is a parameter of
  `AddReplayToSeed`.
- pako and JSON are opaque function values. `Lawful` assumes only that each inverts
  its partner, that deflate never yields "", and that "" is not JSON.
- PlayFab.Lookup: a key is looked up in a map with no prototype. In the source,
  `attireMap["constructor"]`, `attireMap["toString"]` or `attireMap["__proto__"]`
  return an inherited member of `Object.prototype` rather than `undefined`; the model
  gives None for them.
- `src/zip` (used by `getRoyales`/`recordGamePlayed`) is not part of this model. The
  stored runs are held decoded, with None for text that does not unzip.
- localStorage's JSON text is not modelled: each key holds the typed value its reader
  decodes.
- The clock is not modelled. `Date` fields are passed in as integers, and
  `currentSeedExpiry` is left out: it depends on the clock and time zone.
- Randomness is not modelled as such:
  - `rand` and `Math.random` are a roll oracle.
  - `_.sample` is a nondeterministic choice.
  - The seeded `rng` is a draw in [0, 1), and the scene records only the seed it was
    made from.
- UserManager.DefaultSettings: `Math.random` is the parameter `nameRoll`.
- Strings.ToLowerAscii: maps ASCII letters only. `toLowerCase` on other scripts is
  not modelled.
- RoyaleLobby.Pad: `width` is an integer. A fractional width, for which
  `new Array` throws, is not modelled.
- Values in replays and statistics are exact numbers. JavaScript's double rounding and
  PlayFab's int32 statistics are not modelled.
- The validation script's `fs` reads and `console.log` output are I/O. The script is
  modelled on a folder's image names and its set file's text.
- `seeds` reads the version from the query or the path. That fallback is not
  modelled: the version is a parameter.
- BattleScene.BattleScene.RestartTheGame: `dataStore.storeForSeed` is modelled as an
  append to the `stored` log that leaves the store's `data` unchanged, so the restart
  reloads the runs the store held before. `FirebaseDataStore` (`src/firebase.ts`) is
  not part of this model. If storing also adds the run to `data[seed]`, the restarted
  scene would reload it as a ghost, and the model does not capture that.
- BattleScene.BattleScene.FlapPressed: appends to the current `userInput` field. The
  source's handler appends to the array captured when the scene was created, which is
  the same array until the next reset.

## Findings

| source | as written | input that shows it | evidently intended | confidence | as-written member | corrected member |
|---|---|---|---|---|---|---|
| functions/src/getItemFromLootBox.ts:15-20 | `randPercent(2.5)` tests `rand(0, 9) === 3` and `randPercent(1.5)` tests `rand(0, 149) === 4` | a uniform draw: 2.5 is true 1 time in 10 (10%), 1.5 is true 1 time in 150 (about 0.67%) | a 2.5% and a 1.5% chance, as the argument says | high, not executed | LootBox.RandPercentMisses | LootBox.IntendedRandPercentMatchesNominal |
| src/battle/PipeManager.ts:68-76 | `forEach` visits by index while `shift` removes the front group, and the visited group is destroyed | groups at x −100, −90, −80: the first and third are destroyed; the second is shifted off the array without being destroyed, so it is lost; the destroyed third stays on the array | destroy exactly the off-screen groups and keep the others | high, not executed | PipeManager.SweepOfThreeOffScreenGroups | PipeManager.PruneOffScreenPipes |
| src/scripts/validateAttireAndBasesAreInGame.ts:18 | the base field tests the module-level `bases` array, which is always truthy | any image of a folder under assets/attire is printed with `base: true` | the field follows the `base` parameter | high, not executed | AttireScript.ClothingEmittedAsBase | AttireScript.IntendedImgToJSON |
