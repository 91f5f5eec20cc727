/** The HTTP responses the controller builds. */
module Http {
  import opened Base

  const OK: nat := 200
  const PAYLOAD_TOO_LARGE: nat := 413
  const INTERNAL_SERVER_ERROR: nat := 500

  /** An error body is a flat string-to-string map; a success body is the PDF itself. */
  datatype Body = Fields(fields: map<string, string>) | Pdf(bytes: Bytes)

  datatype Response = Response(status: nat, headers: map<string, string>, body: Body)

  function ErrorResponse(status: nat, fields: map<string, string>): Response
  {
    Response(status, map[], Fields(fields))
  }
}
