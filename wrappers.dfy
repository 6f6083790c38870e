/** The optional value used wherever the script reads something that may be absent
    (a JSON key that may be missing, an environment variable that may be unset). */
module Wrappers {

  datatype Option<+T> = None | Some(value: T)
}
