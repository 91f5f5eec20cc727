/** `compressPdf`: best-effort re-serialisation of the merged file, with a raw-bytes fallback. */
module Compressor {
  import opened Base

  /** The message of the exception thrown when even the fallback read fails. */
  const ReadFailureMessage: string := "Failed to read file after compression error"

  /**
   * `merged` is what the merged temp file holds; `reserialize` stands for
   * loading it and saving it again through the PDF library, and `readRaw` for
   * reading the file's bytes directly.
   */
  function CompressPdf(merged: Bytes, reserialize: Bytes -> Result<Bytes>, readRaw: Io): (r: Result<Bytes>)
    // a successful re-serialisation is the answer
    ensures reserialize(merged).Ok? ==> r == reserialize(merged)
    // otherwise the answer is the merged file, byte for byte
    ensures reserialize(merged).Err? && readRaw.Completes? ==> r == Ok(merged)
    // the result is always one of those two
    ensures r.Ok? ==> Ok(r.value) == reserialize(merged) || r.value == merged
    // only a failing raw read raises, and always with the same message
    ensures r.Err? <==> reserialize(merged).Err? && readRaw.Throws?
    ensures r.Err? ==> r.message == ReadFailureMessage
  {
    match reserialize(merged)
    case Ok(saved) => Ok(saved)
    case Err(_) =>
      match readRaw
      case Completes => Ok(merged)
      case Throws(_) => Err(ReadFailureMessage)
  }
}
