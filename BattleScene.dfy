/** The replay logic of the battle scene in src/battle/Scene.ts: the player's inputs
    are recorded with a "sync" of the bird's height every 400 ms, recorded runs of
    other players are replayed as ghosts by draining each run's action queue up to the
    current time, and a finished run is stored when the URL names the player. A ghost
    is its height and the number of flaps it has been made to do; sprites, physics and
    animation are not modelled. */
module BattleScene {
  import opened Wrappers
  import opened Replays

  /** A ghost bird: its height and how many flaps it has been made to do. */
  datatype Ghost = Ghost(y: real, flaps: nat)

  /** The height a sprite is created at. */
  const StartY: real := 80.0

  /** The replay store the scene reads ghosts from: recorded runs by seed. */
  datatype FirebaseDataStore = FirebaseDataStore(apiVersion: string, data: Option<map<string, seq<PlayerData>>>)

  // ---------------------------------------------------------------------------
  // Draining an action queue

  /** The length of the longest prefix of `actions` whose timestamps are all before `t`:
      the actions one frame at time `t` consumes. */
  function DueCount(actions: seq<PlayerEvent>, t: real): (n: nat)
    ensures n <= |actions|
    ensures forall i :: 0 <= i < n ==> actions[i].timestamp < t
    ensures n < |actions| ==> actions[n].timestamp >= t
  {
    if actions == [] || actions[0].timestamp >= t then 0 else 1 + DueCount(actions[1..], t)
  }

  /** What one consumed action does to its ghost: a flap makes it flap, a sync with a
      value moves it to that height, a sync without one is ignored. */
  function Apply(g: Ghost, e: PlayerEvent): (r: Ghost)
    ensures r.flaps == g.flaps + (if e.action.Flap? then 1 else 0)
    ensures e.action.Flap? || e.value.None? ==> r.y == g.y
    ensures e.action.Sync? && e.value.Some? ==> r.y == e.value.value
  {
    match e.action
    case Flap => g.(flaps := g.flaps + 1)
    case Sync => if e.value.Some? then g.(y := e.value.value) else g
  }

  /** The number of flaps among `actions`. */
  function FlapCount(actions: seq<PlayerEvent>): nat
  {
    if actions == [] then 0 else (if actions[0].action.Flap? then 1 else 0) + FlapCount(actions[1..])
  }

  lemma {:induction false} FlapCountSnoc(actions: seq<PlayerEvent>, e: PlayerEvent)
    ensures FlapCount(actions + [e]) == FlapCount(actions) + (if e.action.Flap? then 1 else 0)
  {
    if actions != [] {
      assert (actions + [e])[1..] == actions[1..] + [e];
      FlapCountSnoc(actions[1..], e);
    }
  }

  /** The ghost after the actions, in order: it has flapped once per flap among them. */
  function Play(g: Ghost, actions: seq<PlayerEvent>): (r: Ghost)
    ensures r.flaps == g.flaps + FlapCount(actions)
  {
    if actions == [] then g
    else
      var init := actions[..|actions| - 1];
      assert init + [actions[|actions| - 1]] == actions;
      FlapCountSnoc(init, actions[|actions| - 1]);
      Apply(Play(g, init), actions[|actions| - 1])
  }

  /** A recorded run after one frame at time `t`: its due actions are gone. Runs without
      actions are skipped. */
  function Drained(input: PlayerData, t: real): PlayerData
  {
    match input.actions
    case None => input
    case Some(actions) => input.(actions := Some(actions[DueCount(actions, t)..]))
  }

  /** A frame changes only the queue, and leaves a suffix of it. */
  lemma DrainedKeepsSuffix(input: PlayerData, t: real)
    ensures Drained(input, t).(actions := input.actions) == input
    ensures Drained(input, t).actions.Some? <==> input.actions.Some?
    ensures input.actions.Some? ==>
      var before, after := input.actions.value, Drained(input, t).actions.value;
      |after| <= |before| && after == before[|before| - |after|..]
  {
  }

  /** The run's ghost after one frame at time `t`: it has played the due actions. */
  function Advanced(g: Ghost, input: PlayerData, t: real): (r: Ghost)
    ensures input.actions.None? ==> r == g
    ensures r.flaps >= g.flaps
  {
    match input.actions
    case None => g
    case Some(actions) => Play(g, actions[..DueCount(actions, t)])
  }

  /** After a frame the queue is empty or its head is not yet due. */
  lemma DrainedQueueIsNotDue(input: PlayerData, t: real)
    requires input.actions.Some?
    ensures var rest := Drained(input, t).actions.value;
      rest == [] || rest[0].timestamp >= t
  {
  }

  /** Playing one list of actions after another is playing them together. */
  lemma {:induction false} PlayConcat(g: Ghost, a: seq<PlayerEvent>, b: seq<PlayerEvent>)
    ensures Play(g, a + b) == Play(Play(g, a), b)
    decreases |b|
  {
    if b == [] {
      assert a + b == a;
    } else {
      var last := |b| - 1;
      assert (a + b)[..|a + b| - 1] == a + b[..last];
      PlayConcat(g, a, b[..last]);
    }
  }

  /** A later frame consumes at least as many actions. */
  lemma {:induction false} DueCountMonotone(actions: seq<PlayerEvent>, t1: real, t2: real)
    requires t1 <= t2
    ensures DueCount(actions, t1) <= DueCount(actions, t2)
  {
    if actions != [] && actions[0].timestamp < t1 {
      DueCountMonotone(actions[1..], t1, t2);
    }
  }

  /** What is due at `t2` after the `t1` frame consumed its prefix is the rest of what
      is due at `t2`. */
  lemma {:induction false} DueCountOfRest(actions: seq<PlayerEvent>, t1: real, t2: real)
    requires t1 <= t2
    ensures DueCount(actions, t1) <= DueCount(actions, t2)
    ensures DueCount(actions[DueCount(actions, t1)..], t2) == DueCount(actions, t2) - DueCount(actions, t1)
  {
    DueCountMonotone(actions, t1, t2);
    if actions != [] && actions[0].timestamp < t1 {
      DueCountOfRest(actions[1..], t1, t2);
      assert actions[DueCount(actions, t1)..] == actions[1..][DueCount(actions[1..], t1)..];
    }
  }

  /** A second frame at the same time consumes nothing more. */
  lemma DrainIdempotent(g: Ghost, input: PlayerData, t: real)
    ensures Drained(Drained(input, t), t) == Drained(input, t)
    ensures Advanced(g, Drained(input, t), t) == g
  {
    if input.actions.Some? {
      var rest := Drained(input, t).actions.value;
      assert DueCount(rest, t) == 0;
      assert rest[0..] == rest;
    }
  }

  /** Two frames at t1 <= t2 leave the queue as one frame at t2 does ... */
  lemma TwoFramesDrainAsOne(input: PlayerData, t1: real, t2: real)
    requires t1 <= t2
    ensures Drained(Drained(input, t1), t2) == Drained(input, t2)
  {
    if input.actions.Some? {
      var actions := input.actions.value;
      var n1, n2 := DueCount(actions, t1), DueCount(actions, t2);
      DueCountOfRest(actions, t1, t2);
      assert actions[n1..][n2 - n1..] == actions[n2..];
    }
  }

  /** ... and the ghost as one frame at t2 does, so no action is lost or replayed twice
      when frames are skipped. */
  lemma TwoFramesAdvanceAsOne(g: Ghost, input: PlayerData, t1: real, t2: real)
    requires t1 <= t2
    ensures Advanced(Advanced(g, input, t1), Drained(input, t1), t2) == Advanced(g, input, t2)
  {
    if input.actions.Some? {
      PlayInTwoFrames(g, input.actions.value, t1, t2);
    }
  }

  /** The queue-level form of the above. */
  lemma PlayInTwoFrames(g: Ghost, actions: seq<PlayerEvent>, t1: real, t2: real)
    requires t1 <= t2
    ensures var n1 := DueCount(actions, t1); var rest := actions[n1..];
      Play(Play(g, actions[..n1]), rest[..DueCount(rest, t2)]) == Play(g, actions[..DueCount(actions, t2)])
  {
    var n1, n2 := DueCount(actions, t1), DueCount(actions, t2);
    DueCountOfRest(actions, t1, t2);
    var rest := actions[n1..];
    var first, second := actions[..n1], rest[..n2 - n1];
    assert DueCount(rest, t2) == n2 - n1;
    PlayConcat(g, first, second);
    PrefixThenRest(actions, n1, n2);
    assert first + second == actions[..n2];
  }

  lemma PrefixThenRest(actions: seq<PlayerEvent>, n1: nat, n2: nat)
    requires n1 <= n2 <= |actions|
    ensures actions[..n1] + actions[n1..][..n2 - n1] == actions[..n2]
  {
  }

  /** The runs `create` loads: a copy of the store's runs for the seed (none when it
      has no entry), or the runs already loaded when there is no store data. */
  function RunsFor(store: Option<FirebaseDataStore>, seed: string, current: seq<PlayerData>): (runs: seq<PlayerData>)
    ensures store.Some? && store.value.data.Some? && seed in store.value.data.value ==> runs == store.value.data.value[seed]
    ensures store.Some? && store.value.data.Some? && seed !in store.value.data.value ==> runs == []
    ensures !(store.Some? && store.value.data.Some?) ==> runs == current
  {
    if store.Some? && store.value.data.Some? then
      var data := store.value.data.value;
      if seed in data then data[seed] else []
    else current
  }

  /** One fresh ghost per run. */
  predicate FreshGhosts(ghosts: seq<Ghost>, runs: seq<PlayerData>)
  {
    |ghosts| == |runs| && forall i :: 0 <= i < |ghosts| ==> ghosts[i] == Ghost(StartY, 0)
  }

  // ---------------------------------------------------------------------------
  // Storing a finished run

  /** `restartTheGame` stores the run only when the URL hash is non-empty and more than
      four inputs were recorded. */
  predicate ShouldStore(hash: string, userInput: seq<PlayerEvent>)
    ensures ShouldStore(hash, userInput) ==> hash != "" && |userInput| >= 5
  {
    hash != "" && |userInput| > 4
  }

  /** The stored run: named by the hash without its leading '#'. */
  function Recording(hash: string, apiVersion: string, userInput: seq<PlayerEvent>): (r: PlayerData)
    requires hash != ""
    ensures [hash[0]] + r.name == hash
    ensures r.actions == Some(userInput)
  {
    PlayerData(hash[1..], apiVersion, Some(userInput))
  }

  // ---------------------------------------------------------------------------
  // The scene

  class BattleScene {
    var apiVersion: string
    var seed: string
    /** The seed the current rng was made from (`Seed(this.seed)`). */
    var rngSeed: string
    var userInput: seq<PlayerEvent>
    var recordedInput: seq<PlayerData>
    var ghostBirds: seq<Ghost>
    var dataStore: Option<FirebaseDataStore>
    /** The runs handed to `dataStore.storeForSeed`, in order. */
    var stored: seq<(string, PlayerData)>
    var lastSyncedTimestamp: real
    var timestampOffset: real
    /** Milliseconds between two recorded syncs. */
    const syncInterval: real

    /** One ghost per recorded run. */
    predicate Valid()
      reads this
    {
      |ghostBirds| == |recordedInput|
    }

    /** `new BattleScene(opts)`: the seed defaults to "12345" when absent or empty. */
    constructor(optsSeed: Option<string>)
      ensures Valid()
      ensures seed == (if optsSeed.Some? && optsSeed.value != "" then optsSeed.value else "12345")
      ensures rngSeed == seed && userInput == [] && recordedInput == [] && ghostBirds == []
      ensures dataStore == None && stored == [] && apiVersion == "1"
      ensures syncInterval == 400.0 && lastSyncedTimestamp == 0.0 && timestampOffset == 0.0
    {
      apiVersion := "1";
      recordedInput := [];
      syncInterval := 400.0;
      lastSyncedTimestamp := 0.0;
      seed := if optsSeed.Some? && optsSeed.value != "" then optsSeed.value else "12345";
      rngSeed := seed;
      userInput := [];
      ghostBirds := [];
      timestampOffset := 0.0;
      dataStore := None;
      stored := [];
    }

    /** `resetGame()`: a fresh rng from the seed and no recorded input. */
    method ResetGame()
      modifies this
      ensures rngSeed == seed && userInput == []
      ensures seed == old(seed) && recordedInput == old(recordedInput) && ghostBirds == old(ghostBirds)
      ensures dataStore == old(dataStore) && stored == old(stored) && apiVersion == old(apiVersion)
      ensures lastSyncedTimestamp == old(lastSyncedTimestamp) && timestampOffset == old(timestampOffset)
    {
      rngSeed := seed;
      userInput := [];
    }

    /** `create()`, as far as replay goes: the runs recorded for this seed are copied
        from the store (none when it has no entry) and one ghost is made per run. Dafny
        values are immutable, so the copy shares nothing with the store. */
    method Create()
      modifies this
      ensures Valid()
      ensures recordedInput == RunsFor(old(dataStore), old(seed), old(recordedInput))
      ensures FreshGhosts(ghostBirds, recordedInput)
      ensures seed == old(seed) && userInput == old(userInput) && dataStore == old(dataStore) && stored == old(stored)
      ensures rngSeed == old(rngSeed) && apiVersion == old(apiVersion)
      ensures lastSyncedTimestamp == old(lastSyncedTimestamp) && timestampOffset == old(timestampOffset)
    {
      if dataStore.Some? && dataStore.value.data.Some? {
        var data := dataStore.value.data.value;
        recordedInput := if seed in data then data[seed] else [];
      }
      var ghosts := [];
      var i := 0;
      while i < |recordedInput|
        invariant 0 <= i <= |recordedInput|
        invariant |ghosts| == i && forall k :: 0 <= k < i ==> ghosts[k] == Ghost(StartY, 0)
      {
        ghosts := ghosts + [Ghost(StartY, 0)];
        i := i + 1;
      }
      ghostBirds := ghosts;
    }

    /** The space-bar handler: a flap at the scene time `now`. */
    method FlapPressed(now: real)
      modifies this
      ensures userInput == old(userInput) + [PlayerEvent(Flap, now - timestampOffset, None)]
      ensures seed == old(seed) && recordedInput == old(recordedInput) && ghostBirds == old(ghostBirds)
      ensures dataStore == old(dataStore) && stored == old(stored) && rngSeed == old(rngSeed)
      ensures apiVersion == old(apiVersion)
      ensures lastSyncedTimestamp == old(lastSyncedTimestamp) && timestampOffset == old(timestampOffset)
    {
      userInput := userInput + [PlayerEvent(Flap, now - timestampOffset, None)];
    }

    /** The inner `while` of `update`: shifts the due actions off the front of the
        queue, flapping or moving the ghost for each; what is left starts with the
        first action that is not yet due. */
    static method DrainActions(queue: seq<PlayerEvent>, bird: Ghost, t: real) returns (rest: seq<PlayerEvent>, g: Ghost)
      ensures rest == queue[DueCount(queue, t)..]
      ensures g == Play(bird, queue[..DueCount(queue, t)])
    {
      rest, g := queue, bird;
      ghost var consumed := 0;
      while |rest| > 0 && rest[0].timestamp < t
        invariant 0 <= consumed <= DueCount(queue, t)
        invariant rest == queue[consumed..]
        invariant g == Play(bird, queue[..consumed])
        decreases |rest|
      {
        var action := rest[0];
        rest := rest[1..];
        if action.action == Flap {
          g := g.(flaps := g.flaps + 1);
        } else if action.action == Sync && action.value.Some? {
          g := g.(y := action.value.value);
        }
        assert queue[..consumed + 1][..consumed] == queue[..consumed];
        consumed := consumed + 1;
      }
    }

    /** One pass of `update`'s loop body: a run without actions is skipped, otherwise
        its due actions are drained into its ghost. */
    static method DrainRun(input: PlayerData, bird: Ghost, t: real) returns (drained: PlayerData, g: Ghost)
      ensures drained == Drained(input, t) && g == Advanced(bird, input, t)
    {
      if input.actions.None? {
        return input, bird;
      }
      var actions;
      actions, g := DrainActions(input.actions.value, bird, t);
      drained := input.(actions := Some(actions));
    }

    /** Every run, and its ghost, after one frame at time `t`. */
    static ghost predicate AllAdvanced(runs: seq<PlayerData>, birds: seq<Ghost>, inputs: seq<PlayerData>, ghosts: seq<Ghost>, t: real)
      requires |birds| == |runs|
    {
      |inputs| == |runs| && |ghosts| == |runs| &&
      forall i :: 0 <= i < |runs| ==>
        inputs[i] == Drained(runs[i], t) && ghosts[i] == Advanced(birds[i], runs[i], t)
    }

    /** `update`'s `for` loop over the recorded runs, each run with its ghost. */
    static method DrainAll(runs: seq<PlayerData>, birds: seq<Ghost>, t: real) returns (inputs: seq<PlayerData>, ghosts: seq<Ghost>)
      requires |birds| == |runs|
      ensures AllAdvanced(runs, birds, inputs, ghosts, t)
    {
      inputs, ghosts := runs, birds;
      for index := 0 to |runs|
        invariant |inputs| == |runs| && |ghosts| == |runs|
        invariant forall i :: 0 <= i < index ==>
          inputs[i] == Drained(runs[i], t) && ghosts[i] == Advanced(birds[i], runs[i], t)
        invariant forall i :: index <= i < |runs| ==> inputs[i] == runs[i] && ghosts[i] == birds[i]
      {
        var input, g := DrainRun(inputs[index], ghosts[index], t);
        inputs := inputs[index := input];
        ghosts := ghosts[index := g];
      }
    }

    /** `update(timestamp)`: records a sync of the bird's height `birdY` when at least
        `syncInterval` has passed since the last one, then drains every ghost's queue up
        to the adjusted time. */
    method Update(timestamp: real, birdY: real)
      requires Valid()
      modifies this
      ensures Valid()
      ensures var t := timestamp - timestampOffset;
        if t - old(lastSyncedTimestamp) >= syncInterval
        then userInput == old(userInput) + [PlayerEvent(Sync, t, Some(birdY))] && lastSyncedTimestamp == t
        else userInput == old(userInput) && lastSyncedTimestamp == old(lastSyncedTimestamp)
      ensures AllAdvanced(old(recordedInput), old(ghostBirds), recordedInput, ghostBirds, timestamp - timestampOffset)
      ensures seed == old(seed) && dataStore == old(dataStore) && stored == old(stored) && rngSeed == old(rngSeed)
      ensures apiVersion == old(apiVersion) && timestampOffset == old(timestampOffset)
    {
      var adjustedTime := timestamp - timestampOffset;
      if adjustedTime - lastSyncedTimestamp >= syncInterval {
        userInput := userInput + [PlayerEvent(Sync, adjustedTime, Some(birdY))];
        lastSyncedTimestamp := adjustedTime;
      }

      recordedInput, ghostBirds := DrainAll(recordedInput, ghostBirds, adjustedTime);
    }

    /** `restartTheGame(hash)`: stores the run when `ShouldStore` holds, then resets and
        restarts the scene, which runs `create` again: the recorded runs are reloaded
        from the store and every ghost starts afresh. With no data store configured the
        store call throws a TypeError before the reset, which `threw` reports. */
    method RestartTheGame(hash: string) returns (threw: bool)
      modifies this
      ensures threw <==> ShouldStore(hash, old(userInput)) && old(dataStore).None?
      ensures threw ==> stored == old(stored) && userInput == old(userInput) && rngSeed == old(rngSeed)
      ensures threw ==> recordedInput == old(recordedInput) && ghostBirds == old(ghostBirds)
      ensures !threw && ShouldStore(hash, old(userInput)) ==>
        stored == old(stored) + [(seed, Recording(hash, apiVersion, old(userInput)))]
      ensures !ShouldStore(hash, old(userInput)) ==> stored == old(stored)
      ensures !threw ==> userInput == [] && rngSeed == seed && Valid()
      ensures !threw ==> recordedInput == RunsFor(dataStore, seed, old(recordedInput))
      ensures !threw ==> FreshGhosts(ghostBirds, recordedInput)
      ensures seed == old(seed) && dataStore == old(dataStore) && apiVersion == old(apiVersion)
      ensures lastSyncedTimestamp == old(lastSyncedTimestamp) && timestampOffset == old(timestampOffset)
    {
      if hash != "" && |userInput| > 4 {
        if dataStore.None? {
          return true;
        }
        var name := hash[1..];
        stored := stored + [(seed, PlayerData(name, apiVersion, Some(userInput)))];
      }
      ResetGame();
      Create();
      return false;
    }

    /** `configureDataStore(store)`: adopts the store and its API version, then restarts
        with the URL hash `hash`, which loads the store's runs for the seed as ghosts. */
    method ConfigureDataStore(store: FirebaseDataStore, hash: string)
      modifies this
      ensures dataStore == Some(store) && apiVersion == store.apiVersion
      ensures ShouldStore(hash, old(userInput)) ==>
        stored == old(stored) + [(seed, Recording(hash, store.apiVersion, old(userInput)))]
      ensures !ShouldStore(hash, old(userInput)) ==> stored == old(stored)
      ensures userInput == [] && rngSeed == seed && seed == old(seed) && Valid()
      ensures recordedInput == RunsFor(Some(store), seed, old(recordedInput))
      ensures FreshGhosts(ghostBirds, recordedInput)
      ensures lastSyncedTimestamp == old(lastSyncedTimestamp) && timestampOffset == old(timestampOffset)
    {
      dataStore := Some(store);
      apiVersion := store.apiVersion;
      var threw := RestartTheGame(hash);
    }
  }
}
