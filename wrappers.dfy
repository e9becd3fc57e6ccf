/** Small datatypes shared by the model: an optional value, and the outcome of
    asking the language model for a JSON object and reading one key of it. */
module Wrappers {

  /** A Python value that may be absent (a missing dictionary key). */
  datatype Option<+T> = None | Some(value: T) {

    /** `d.get(key, default)`: the value when present, else the default. */
    function GetOr(default: T): T
    {
      match this
      case Some(v) => v
      case None => default
    }
  }

  /** What `json.loads(reply)` followed by a lookup of one key yields: the reply
      did not parse (or the call raised), it parsed but the key is absent (or
      the parsed value is not a dictionary), or the key's value. */
  datatype JsonReply<+T> = Unparsable | MissingKey | Field(value: T)
}
