/**
 * The upload size guard at the start of `mergePdfFile`: a fail-fast pass over
 * the uploads against a strict per-file limit, then a check of the running
 * total against the per-request limit.
 */
module SizeGuard {
  import opened Base
  import opened Http
  import opened FileSize

  /** 100 × 1024 × 1024 bytes: one upload may be at most this large. */
  const MaxFileBytes: nat := 100 * 1024 * 1024
  /** 250 × 1024 × 1024 bytes: all uploads together may be at most this large. */
  const MaxRequestBytes: nat := 250 * 1024 * 1024

  const MaxFileLabel: string := "100MB"
  const MaxRequestLabel: string := "250MB"

  /** What the controller reads of one multipart part. */
  datatype Upload = Upload(originalFilename: string, size: nat, content: Bytes)

  predicate Oversized(f: Upload) { f.size > MaxFileBytes }

  /** Index of the first upload, in upload order, that is over the per-file limit. */
  function FirstOversized(files: seq<Upload>): (r: Option<nat>)
    ensures r.None? <==> forall j :: 0 <= j < |files| ==> !Oversized(files[j])
    ensures r.Some? ==> r.value < |files| && Oversized(files[r.value])
    ensures r.Some? ==> forall j :: 0 <= j < r.value ==> !Oversized(files[j])
  {
    if files == [] then None
    else if Oversized(files[0]) then Some(0)
    else match FirstOversized(files[1..])
      case None => None
      case Some(k) => Some(k + 1)
  }

  /** The sum of the declared sizes. */
  function Total(files: seq<Upload>): nat
  {
    if files == [] then 0 else Total(files[..|files| - 1]) + files[|files| - 1].size
  }

  function FileSizeExceeded(filename: string): Response
  {
    ErrorResponse(PAYLOAD_TOO_LARGE, map[
      "error" := "FILE_SIZE_EXCEEDED",
      "message" := "File '" + filename + "' exceeds the maximum allowed size of " + MaxFileLabel,
      "maxFileSize" := MaxFileLabel])
  }

  function RequestSizeExceeded(actualSize: string): Response
  {
    ErrorResponse(PAYLOAD_TOO_LARGE, map[
      "error" := "REQUEST_SIZE_EXCEEDED",
      "message" := "Total request size exceeds the maximum allowed size of " + MaxRequestLabel,
      "maxRequestSize" := MaxRequestLabel,
      "actualSize" := actualSize])
  }

  /**
   * The guard's verdict: the 413 response to send, or None to continue.
   * `scaled` stands for `formatFileSize` on 1024 bytes and above.
   */
  function SizeVerdict(files: seq<Upload>, scaled: int -> string): Option<Response>
  {
    match FirstOversized(files)
    case Some(k) => Some(FileSizeExceeded(files[k].originalFilename))
    case None =>
      if Total(files) > MaxRequestBytes
      then Some(RequestSizeExceeded(FormatFileSize(Total(files), scaled)))
      else None
  }

  /** The loop of the source: accumulate, and return at the first oversized upload. */
  method CheckSizes(files: seq<Upload>, scaled: int -> string) returns (rejection: Option<Response>)
    ensures rejection == SizeVerdict(files, scaled)
  {
    var totalSize := 0;
    for i := 0 to |files|
      invariant totalSize == Total(files[..i])
      invariant forall j :: 0 <= j < i ==> !Oversized(files[j])
    {
      assert files[..i + 1][..i] == files[..i];
      totalSize := totalSize + files[i].size;
      if files[i].size > MaxFileBytes {
        return Some(FileSizeExceeded(files[i].originalFilename));
      }
    }
    assert files[..|files|] == files;
    if totalSize > MaxRequestBytes {
      return Some(RequestSizeExceeded(FormatFileSize(totalSize, scaled)));
    }
    return None;
  }

  /**
   * An oversized upload is rejected with FILE_SIZE_EXCEEDED naming the first
   * oversized upload, whatever follows it.
   */
  lemma FirstOversizedIsNamed(files: seq<Upload>, k: nat, scaled: int -> string)
    requires k < |files| && Oversized(files[k])
    requires forall j :: 0 <= j < k ==> !Oversized(files[j])
    ensures var v := SizeVerdict(files, scaled);
      v.Some? && v.value.status == PAYLOAD_TOO_LARGE && v.value.body.Fields? &&
      v.value.body.fields.Keys == {"error", "message", "maxFileSize"} &&
      v.value.body.fields["error"] == "FILE_SIZE_EXCEEDED" &&
      v.value.body.fields["maxFileSize"] == "100MB" &&
      v.value.body.fields["message"] == "File '" + files[k].originalFilename +
        "' exceeds the maximum allowed size of 100MB"
  {
  }

  /** The REQUEST_SIZE_EXCEEDED body and its four keys. */
  lemma RequestBodyShape(actualSize: string)
    ensures var r := RequestSizeExceeded(actualSize);
      r.status == PAYLOAD_TOO_LARGE && r.body.Fields? &&
      r.body.fields.Keys == {"error", "message", "maxRequestSize", "actualSize"} &&
      r.body.fields["error"] == "REQUEST_SIZE_EXCEEDED" &&
      r.body.fields["maxRequestSize"] == "250MB" &&
      r.body.fields["actualSize"] == actualSize
  {
  }

  /**
   * With no upload oversized, a total over the request limit is rejected with
   * REQUEST_SIZE_EXCEEDED; its actualSize always comes from the scaled branch
   * of `formatFileSize`, never from the " B" branch.
   */
  lemma RequestOverLimitIsRejected(files: seq<Upload>, scaled: int -> string)
    requires forall j :: 0 <= j < |files| ==> !Oversized(files[j])
    requires Total(files) > MaxRequestBytes
    ensures var v := SizeVerdict(files, scaled);
      v.Some? && v.value.status == PAYLOAD_TOO_LARGE && v.value.body.Fields? &&
      v.value.body.fields.Keys == {"error", "message", "maxRequestSize", "actualSize"} &&
      v.value.body.fields["error"] == "REQUEST_SIZE_EXCEEDED" &&
      v.value.body.fields["maxRequestSize"] == "250MB" &&
      v.value.body.fields["actualSize"] == scaled(Total(files))
  {
    var actual := scaled(Total(files));
    assert SizeVerdict(files, scaled) == Some(RequestSizeExceeded(actual));
    RequestBodyShape(actual);
  }

  /**
   * The guard lets a request through exactly when every upload is at most
   * 100 MiB (a file of exactly 104857600 bytes passes) and the total is at
   * most 250 MiB (a total of exactly 262144000 bytes passes).
   */
  lemma ContinueIff(files: seq<Upload>, scaled: int -> string)
    ensures SizeVerdict(files, scaled).None? <==>
      (forall j :: 0 <= j < |files| ==> files[j].size <= MaxFileBytes) &&
      Total(files) <= MaxRequestBytes
  {
  }

  /** Every rejection is a 413 with one of the two guard error kinds. */
  lemma RejectionIsPayloadTooLarge(files: seq<Upload>, scaled: int -> string)
    requires SizeVerdict(files, scaled).Some?
    ensures var r := SizeVerdict(files, scaled).value;
      r.status == PAYLOAD_TOO_LARGE && r.body.Fields? && "error" in r.body.fields &&
      r.body.fields["error"] in {"FILE_SIZE_EXCEEDED", "REQUEST_SIZE_EXCEEDED"}
  {
  }

  /**
   * A passing request's total fits in a signed 64-bit `long` for any
   * realistic number of uploads (up to 2^36), so the unbounded total is the
   * source's `totalSize`.
   */
  lemma {:induction false} PassingTotalFitsInLong(files: seq<Upload>)
    requires forall j :: 0 <= j < |files| ==> !Oversized(files[j])
    requires |files| <= 0x10_0000_0000
    ensures Total(files) <= |files| * MaxFileBytes
    ensures Total(files) < 0x8000_0000_0000_0000
    decreases |files|
  {
    if files != [] {
      PassingTotalFitsInLong(files[..|files| - 1]);
    }
  }

  /** The limit labels in the error bodies name the byte limits the guard enforces, in MiB. */
  lemma LimitLabelsAgree()
    ensures MaxFileBytes % (1024 * 1024) == 0 && MaxRequestBytes % (1024 * 1024) == 0
    ensures MaxFileLabel == NatToString(MaxFileBytes / (1024 * 1024)) + "MB"
    ensures MaxRequestLabel == NatToString(MaxRequestBytes / (1024 * 1024)) + "MB"
  {
    assert NatToString(100) == "100" by {
      assert NatToString(1) == "1";
      assert NatToString(10) == "10";
    }
    assert NatToString(250) == "250" by {
      assert NatToString(2) == "2";
      assert NatToString(25) == "25";
    }
  }
}
