/** Types shared by every component of the model. */
module Common {
  datatype Option<+T> = None | Some(value: T) {
    function GetOr(default: T): T { if Some? then value else default }
  }

  newtype Byte = b: int | 0 <= b < 256

  type Bytes = seq<Byte>

  /** Wall-clock instants and durations are nanosecond counts. */
  type Time = int
}
