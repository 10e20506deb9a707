/** Outcomes of the analysis operations.

    The analyser reports its failures as .NET exceptions; the model returns them as
    values. A reference that the source tests against `null` is an `Option`.
 */
module Outcomes {

  datatype Option<+T> = None | Some(value: T)

  /** What a series that had to exist before a computation was missing. */
  datatype Prerequisite = Centroid | VolumeAndBandEnergy | Calculated

  /** The failures of the core. Each constructor but the last stands for a .NET exception the
      source can raise at a distinct place (`EmptySequence` and `InvalidOperation` are both
      `InvalidOperationException`, from LINQ and from the analyser's own checks); `EmptyWindow`
      has no exception of its own and marks a window the model does not compute a spectrum for. */
  datatype Fault =
    | DivideByZero                       // integer division by a frame length of 0
    | Overflow                           // an array allocated with a negative length
    | IndexOutOfRange                    // an index past the end of a series
    | InvalidOperation(missing: Prerequisite)
    | EmptySequence                      // LINQ Max over an empty spectrum
    | FileFormat                         // a WAV file that is not 22050 Hz, 16 bit, mono
    | EmptyWindow                        // a frame window with no samples in it

  datatype Result<+T> = Ok(value: T) | Err(error: Fault)

  datatype Outcome = Pass | Fail(error: Fault)
}
