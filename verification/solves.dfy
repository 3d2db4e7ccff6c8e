/** The solve record built by the CSV loader and read by every other part of
    the program. Dates are opaque, comparable timestamps (milliseconds);
    durations are integer milliseconds. */
module Solves {
  import opened Common

  /** One phase of a solve (`step_<i>_*` columns). */
  datatype Step = Step(
    name: string,
    time: int,
    recognitionTime: Option<int>,
    executionTime: Option<int>)

  /** One attempt. `session` is `None` for a record that carries no session
      field at all; the CSV loader always fills it in. */
  datatype Solve = Solve(
    id: string,
    date: int,
    time: int,
    faceTurns: Option<int>,
    scramble: string,
    dnf: bool,
    totalRecognitionTime: int,
    totalExecutionTime: Option<int>,
    steps: seq<Step>,
    session: Option<string>)
}
