/** How a process of the server can stop being itself. */
module Process {

  /** `Bug` and `Die` are the calls `bug()` and `die()`; `Exit` is an orderly end of the
      session. A status other than `Running` ends the process, so it is passed on with `:-`. */
  datatype Status = Running | Bug | Die | Exit {
    predicate IsFailure() { !Running? }
    function PropagateFailure(): Status
      requires IsFailure()
    {
      this
    }
  }

  /** The outcome of an operation on a state: `Died` for a failure that can happen, `Trapped`
      for a check that the authors of the code hold to be unreachable. */
  datatype Outcome<St, Re> = Served(state: St, result: Re) | Died | Trapped
}
