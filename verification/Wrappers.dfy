/** What all modules share: the result shapes for raising and for None, the names of agents, and time texts. */
module Wrappers {
  type AgentId = string

  datatype Option<+T> = None | Some(value: T)

  datatype Result<+T, +E> = Ok(value: T) | Err(error: E)

  /** A time text: the instant it stands for, or `None` if the time parser refuses it. */
  type TimeText = Option<int>
}
