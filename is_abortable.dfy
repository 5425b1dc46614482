/** lib/isAbortable.js: the exported, null-safe `isAbortable` predicate. */
module IsAbortableExport {
  import opened Utils

  /**
   * `value != null && isAbortable(value)`: a thenable whose `_isAbortable`
   * is truthy; an `.abort()` method alone is not enough.
   */
  function IsAbortableValue(v: JsValue): (r: bool)
    ensures v.Null? || v.Undefined? ==> !r
    ensures !v.Null? && !v.Undefined? ==> r == IsAbortable(v)
    ensures r ==> IsPromise(v)
    ensures r <==> v.Object? && v.thenIsFunction && v.isAbortableFlag
  {
    !(v.Null? || v.Undefined?) && IsAbortable(v)
  }
}
