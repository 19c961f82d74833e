/** A value that may be absent: the source's `null` and `undefined`. */
module Options {
  datatype Option<T> = None | Some(value: T) {
    /** The source's `this ?? other`. */
    function Or(other: T): T {
      if Some? then value else other
    }
  }
}
