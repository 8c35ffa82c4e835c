/** The error texts that EXPLAIN collection writes into rows. */
module ExplainErrors {
  import opened Bytes

  const CONNECTION_FAILED := Ascii("connection failed")
  const NEED_GRANT := Ascii("need_grant_permission")
  const NEED_FULL_QUERY := Ascii("need_full_query")

  /** The reason recorded for a failure, never empty. */
  function OrDefault(reason: Text): (r: Text)
    ensures r != []
  {
    if reason == [] then CONNECTION_FAILED else reason
  }

  function ConnectionFailedError(reason: Text): Text {
    Ascii("connection_failed: ") + OrDefault(reason)
  }
}
