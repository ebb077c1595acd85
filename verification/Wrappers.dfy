/** Optional values (Python's None or a value) and results (a value, or the exception raised). */
module Wrappers {
  datatype Option<+T> = None | Some(value: T)

  datatype Result<+R, +E> = Success(value: R) | Failure(error: E)

  function GetOr<T>(x: Option<T>, default: T): T {
    if x.Some? then x.value else default
  }

  /** `s or None` */
  function NonEmpty(s: Option<string>): Option<string> {
    if s == Some("") then None else s
  }

  /** A page of mapped items, and the cursor of the next one if there is one (`_next_page`). */
  datatype Page<+T> = Page(items: seq<T>, nextToken: Option<string>)
}
