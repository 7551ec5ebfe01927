/** What several parts of the program share. */
module Basics {

  datatype Option<+T> = None | Some(value: T)

  /** The states of libmachine/state/state.go, whose None, Error and Timeout have longer names here. */
  datatype VmState = NoState | Running | Paused | Saved | Stopped | Stopping | Starting | ErrorState | TimeoutState
}
