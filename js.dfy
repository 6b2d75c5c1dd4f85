/**
 * JavaScript and Mongoose value conventions shared by the server-side
 * modules: user ids and the truthiness of an optional string field.
 */
module Js {
  import opened Wrappers

  /** Object ids of users; the model only compares them. */
  type UserId = nat

  /**
   * Truthiness of an optional string: present and not empty. It is the
   * test of `if (x)` and `x || y`, and also Mongoose's `required` check
   * on a String path.
   */
  predicate Truthy(v: Option<string>)
  {
    v.Some? && v.value != ""
  }
}
