/** Success/failure values. An `Effect` that cannot suspend and has no
    requirements behaves, for the purposes of this model, like a `Result`:
    it either succeeds with a value or fails with an error. */
module Results {

  datatype Result<+T, +E> = Ok(value: T) | Err(error: E) {

    /** Rewrites the error of a failure and leaves a success alone
        (`Effect.mapError`). */
    function MapError<E2>(f: E -> E2): (r: Result<T, E2>)
      ensures r.Ok? <==> this.Ok?
      ensures r.Ok? ==> r.value == this.value
      ensures r.Err? ==> r.error == f(this.error)
    {
      match this
      case Ok(v) => Ok(v)
      case Err(e) => Err(f(e))
    }
  }
}
