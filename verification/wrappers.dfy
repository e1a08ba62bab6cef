/** The optional value used wherever the source reads a possibly missing field
    (`x?.y`) or a possibly failed lookup (`Array.prototype.find`). */
module Wrappers {

  datatype Option<+T> = None | Some(value: T) {

    /** The value when present, otherwise `default` (the source's `?? default`). */
    function GetOr(default: T): T {
      match this
      case Some(v) => v
      case None => default
    }
  }
}
