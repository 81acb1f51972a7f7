/** The replay records the game uploads and plays back: a recorded run is the
    player's name, the API version it was played on, and the timed actions. */
module Replays {
  import opened Wrappers

  datatype ActionKind = Flap | Sync

  /** One recorded action: a flap, or a sync carrying the bird's y position. Times are
      milliseconds since the run started. */
  datatype PlayerEvent = PlayerEvent(action: ActionKind, timestamp: real, value: Option<real>)

  /** A recorded run; `actions` may be absent in stored data. */
  datatype PlayerData = PlayerData(name: string, apiVersion: string, actions: Option<seq<PlayerEvent>>)
}
