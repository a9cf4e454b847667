/** Missing values and error results shared by every stage of the pipeline. */
module Wrappers {

  /** A cell that may be missing (pandas NaN / an absent column). */
  datatype Option<+T> = None | Some(value: T) {
    function GetOr(default: T): T {
      match this
      case Some(v) => v
      case None => default
    }
  }

  /** The outcome of a stage that can raise. */
  datatype Result<+R, +E> = Success(value: R) | Failure(error: E)

  /** The exceptions a pipeline run can end with. */
  datatype PipelineError =
    | ParseError(name: string)            // a month name `%B` does not recognise
    | DateError(year: int, month: int)    // a (YEAR, MONTH) whose month is outside 1..12
}
