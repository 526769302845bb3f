/** The optional value used wherever the modelled code may find nothing:
    a missing file, a missing form field, a failed decode, a search without a hit. */
module Options {

  datatype Option<+T> = None | Some(value: T) {

    /** The carried value, or `default` when there is none (Python's `x or default`
        for a missing field, JavaScript's `x || default` for an absent one). */
    function GetOr(default: T): T {
      match this
      case Some(v) => v
      case None => default
    }
  }
}
