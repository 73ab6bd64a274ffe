/** When the coroutine of a scroll loop is cancelled. */
module Cancellation {
  /**
   InDelay(k): during frame k or the delay after it, which in either case throws.  BeforeFrame(k): between
   the delay after frame k - 1, or the launch, and the loop's test before frame k, which finds it.
   */
  datatype Cancel = Never | InDelay(frame: nat) | BeforeFrame(frame: nat)
}
