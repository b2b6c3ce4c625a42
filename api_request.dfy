/**
 * Reading the backend's query-string fields.
 */
module ApiRequest {
  import opened Wrappers

  /** JavaScript truthiness of a query-string field: sent and not empty. */
  predicate Truthy(v: Option<string>) {
    v.Some? && v.value != ""
  }
}
