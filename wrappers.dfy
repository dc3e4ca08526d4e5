/** A value that may be absent: a NULL pointer from strtok, strstr or fopen. */
module Wrappers {

  datatype Option<+T> = None | Some(value: T)
}
