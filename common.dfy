/** Values shared by both command-line tools. */
module Common {

  /** Python's `None` or a value. */
  datatype Option<+T> = None | Some(value: T)

  /** Python truthiness of an optional string argument (`if name:` / `if path:`):
      both `None` and the empty string are false. */
  predicate Truthy(s: Option<string>) {
    s.Some? && s.value != ""
  }
}
