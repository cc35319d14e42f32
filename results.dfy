/** Failure-carrying values shared by the whole model. */
module Results {

  /** Outcome of a search that may find nothing (a regex search, a template match). */
  datatype Option<T> = None | Some(value: T)

  /** A value, or a failure carrying the text of the exception that was raised. */
  datatype Result<T> = Ok(value: T) | Fail(msg: string)
  {
    /** Applies `f` to a success value and passes a failure through unchanged. */
    function Map<U>(f: T -> U): (r: Result<U>)
      ensures r.Ok? <==> this.Ok?
      ensures r.Ok? ==> r.value == f(this.value)
      ensures r.Fail? ==> r.msg == this.msg
    {
      match this
      case Ok(v) => Ok(f(v))
      case Fail(m) => Fail(m)
    }
  }
}
