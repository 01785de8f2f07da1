/** Outcome types shared by the Go and Python models.

    Go's `(string, error)` pairs become `Result`: `Err` carries the error's
    message text (`err.Error()`) and no value, standing for the empty string the
    Go code returns beside a non-nil error.  Python's "dict that may lack a key"
    becomes `Option`. */
module Results {

  datatype Result<+T> = Ok(value: T) | Err(msg: string)

  datatype Option<+T> = None | Some(value: T)

  /** `p` is a prefix of `s`. */
  predicate HasPrefix(s: string, p: string) {
    |p| <= |s| && s[..|p|] == p
  }
}
