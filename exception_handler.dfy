/** The controller advice that answers the framework's own upload-size rejection. */
module GlobalExceptionHandler {
  import opened Http
  import opened SizeGuard

  /** `handleMaxSizeException`: the same 413 whatever the exception says. */
  function HandleMaxSizeException(): (r: Response)
    ensures r.status == PAYLOAD_TOO_LARGE && r.body.Fields?
    ensures r.body.fields.Keys == {"error", "message", "maxFileSize", "maxRequestSize"}
    ensures r.body.fields["error"] == "UPLOAD_SIZE_EXCEEDED"
    ensures r.body.fields["maxFileSize"] == "100MB" && r.body.fields["maxRequestSize"] == "250MB"
  {
    ErrorResponse(PAYLOAD_TOO_LARGE, map[
      "error" := "UPLOAD_SIZE_EXCEEDED",
      "message" := "File size exceeds the maximum allowed limit",
      "maxFileSize" := MaxFileLabel,
      "maxRequestSize" := MaxRequestLabel])
  }

  /**
   * The framework-level rejection reports the same limits, under the same
   * keys, as the controller's own two size rejections.
   */
  lemma SameLimitsAsGuard(filename: string, actualSize: string)
    ensures HandleMaxSizeException().body.fields["maxFileSize"]
         == FileSizeExceeded(filename).body.fields["maxFileSize"]
    ensures HandleMaxSizeException().body.fields["maxRequestSize"]
         == RequestSizeExceeded(actualSize).body.fields["maxRequestSize"]
  {
  }
}
