/** Small value types shared by every module of the model. */
module Wrappers {

  /** A value that may be absent: a missing header, a null column, an
      undefined JSON field. */
  datatype Option<+T> = None | Some(value: T) {
    function GetOr(default: T): T {
      match this
      case Some(v) => v
      case None => default
    }
  }

  /** JavaScript truthiness of an optional string: absent and "" are both falsy. */
  predicate Truthy(s: Option<string>) {
    s.Some? && s.value != ""
  }

  /** The verdict every server-side check returns (`SecurityCheckResult` in
      the source): allowed, or denied with a reason and an optional advisory
      block duration in minutes. */
  datatype CheckResult =
    | Allowed
    | Denied(reason: string, blockDuration: Option<int>)
}
