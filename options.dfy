/** A value that may be absent: a missing key of the provider's JSON, or the
    `None` that the message builder returns when there is nothing to send. */
module Options {

  datatype Option<T> = None | Some(value: T) {

    /** `d.get(key, default)`: the value when present, the default otherwise. */
    function GetOr(default: T): (r: T)
      ensures Some? ==> r == value
      ensures None? ==> r == default
    {
      match this
      case Some(v) => v
      case None => default
    }
  }
}
