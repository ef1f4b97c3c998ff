/** Values of a decoded JSON feed record as the Python code reads them with `dict.get`. */
module Json {

  /** A value that may be missing (Python's `None`). */
  datatype Option<T> = None | Some(value: T) {

    /** `x or default`: a missing value gives the default. For every use in this model a
        present-but-falsy value (0, "", {}) also equals the default, so the two agree. */
    function GetOr(default: T): T {
      match this
      case Some(v) => v
      case None => default
    }
  }

  /** One key of a JSON object: not there, there with `null`, or there with a value. */
  datatype Field<T> = Absent | Null | Present(value: T) {

    /** `d.get(k)`: `None` for an absent key and for a null value alike. */
    function Get(): Option<T> {
      match this
      case Present(v) => Some(v)
      case _ => None
    }

    /** `d.get(k, default)`: the default only for an absent key; a null value stays `None`. */
    function GetWithDefault(default: T): Option<T> {
      match this
      case Absent => Some(default)
      case Null => None
      case Present(v) => Some(v)
    }
  }
}
