# PDF merge endpoint, modelled in Dafny

This project models the request handler of a small PDF-merging web service.
Its one endpoint, `POST /api/merge`, accepts several uploaded PDF files. It
rejects uploads that are too large. It copies each upload into its own
temporary file, in upload order, and has a PDF library merge those files into
one output temporary file. It then tries to shrink the output by loading and
saving it again. It returns either the PDF or a structured error. Whatever
happens, it tries to delete every temporary file it created; a delete that
fails is ignored.

The model follows the controller's own structure:

- `SizeGuard` (`size_guard.dfy`) is the fail-fast size loop. A single upload
  may be at most 100 × 1024 × 1024 bytes; the sum of all uploads may be at
  most 250 × 1024 × 1024 bytes. Both limits are strict "greater than" checks.
  `CheckSizes` is the loop. It is proved equal to the pure verdict
  `SizeVerdict`, and the lemmas describe that verdict.
- `TempStore` (`temp_store.dfy`) is the filesystem, seen as a class
  `TempFiles` that holds the live temporary files and their bytes. Fresh names
  come from a counter. Two ghost logs record every name handed out and every
  delete-if-exists attempt.
- `PdfMerger` (`pdf_merger.dfy`) is `mergePdfFile`. `StageUpload`,
  `StageInputs` and `Stage` form the try block. `Cleanup` is the `finally`
  block. `MergePdfFile` puts them together. The PDF library, the upload
  streams and every filesystem call that can throw are oracles, gathered in
  the datatype `Env`. These are:
  - whether each temp-file creation, copy or merge-source registration
    (`addSource`) throws, and with what message;
  - the merge, as a function from the sources' bytes (in order) to a merged
    PDF or a failure;
  - the load-and-save pass;
  - the fallback raw read;
  - the set of paths whose delete throws.

  `ExpectedResponse` is the pure description of the response. `MergePdfFile`
  is proved to return it. It creates no temp file when the guard rejects or
  the output file cannot be created. Otherwise it creates the output file and
  then one input file per upload, up to the first upload whose staging throws.
  That upload adds a file unless creating it was what threw. On every exit path, `MergePdfFile` makes exactly one
  delete attempt per created file, in creation order. Afterwards, only files
  whose delete threw remain, and no file that existed before is touched.
- `Compressor` (`compressor.dfy`) is `compressPdf`: the re-serialised bytes,
  else the merged file's raw bytes, else an exception.
- `GlobalExceptionHandler` (`exception_handler.dfy`) is the advice that turns
  the framework's upload-limit exception into a 413.
- `FileSize` (`file_size.dfy`) is the part of `formatFileSize` below 1024
  bytes (a decimal count followed by " B"), with a decimal parser to read it
  back.
- `Http` and `Base` hold the response type, the status codes, bytes, and the
  `Option`/`Result`/`Io` wrappers.

The handler, called with no uploads, does not reject the request: the size
loop passes it, an output file is created, and the merge runs with no sources. What the merge makes of
that decides between a 200 and a 500 (`NoUploadsReachMerge`). The size
rejections return from inside the try block, so the `finally` block runs, but
at that point it has nothing to delete. `MergePdfFile` therefore returns the
rejection without calling `Cleanup`, and proves that the filesystem is left
exactly as it was.

## Model

| member | source | states |
|---|---|---|
| `SizeGuard.CheckSizes` | src/main/java/com/example/PDFMerger/PdfMerger.java:39-58 | the accumulate-and-check loop returns exactly the guard's verdict: the first oversized file's 413, else the request-size 413, else continue |
| `SizeGuard.FirstOversized` | src/main/java/com/example/PDFMerger/PdfMerger.java:40-48 | finds nothing exactly when no upload exceeds 104857600 bytes; otherwise returns an index that is over the limit, with every earlier upload within it |
| `SizeGuard.FirstOversizedIsNamed` | src/main/java/com/example/PDFMerger/PdfMerger.java:40-48 | if upload k is the first over the limit, the response is a 413 with exactly the keys error, message and maxFileSize: error FILE_SIZE_EXCEEDED, maxFileSize "100MB", and a message naming upload k's filename |
| `SizeGuard.RequestBodyShape` | src/main/java/com/example/PDFMerger/PdfMerger.java:51-57 | the request-size rejection is a 413 with exactly the keys error, message, maxRequestSize and actualSize |
| `SizeGuard.RequestOverLimitIsRejected` | src/main/java/com/example/PDFMerger/PdfMerger.java:51-58 | if no upload is oversized and the total exceeds 262144000, the response is a 413 REQUEST_SIZE_EXCEEDED with maxRequestSize "250MB" and an actualSize from the 1024-and-above branch of formatFileSize |
| `SizeGuard.ContinueIff` | src/main/java/com/example/PDFMerger/PdfMerger.java:39-58 | the guard lets a request through if and only if every upload is at most 104857600 bytes and the total is at most 262144000 bytes, so both exact limits pass |
| `SizeGuard.RejectionIsPayloadTooLarge` | src/main/java/com/example/PDFMerger/PdfMerger.java:42-57 | every guard rejection is a 413 whose error is FILE_SIZE_EXCEEDED or REQUEST_SIZE_EXCEEDED |
| `SizeGuard.PassingTotalFitsInLong` | src/main/java/com/example/PDFMerger/PdfMerger.java:39-41 | when every upload passes and there are at most 2^36 of them, the total is at most count × 104857600, which fits in a signed 64-bit long |
| `SizeGuard.LimitLabelsAgree` | src/main/java/com/example/PDFMerger/PdfMerger.java:30-31 | the "100MB" and "250MB" labels are the decimal MiB counts of the byte limits the guard enforces |
| `FileSize.NatToStringRoundTrip` | src/main/java/com/example/PDFMerger/PdfMerger.java:143 | the decimal rendering of a count is non-empty, is all digits, has no leading zero, and parses back to the count |
| `FileSize.SmallSizeIsDecimalBytes` | src/main/java/com/example/PDFMerger/PdfMerger.java:142-143 | below 1024 bytes, formatFileSize gives the decimal count (which parses back to the input) followed by " B" |
| `FileSize.NegativeSizeHasSign` | src/main/java/com/example/PDFMerger/PdfMerger.java:143 | a negative long is rendered with a leading minus sign, then its magnitude's digits, then " B" |
| `Compressor.CompressPdf` | src/main/java/com/example/PDFMerger/PdfMerger.java:127-139 | a successful re-serialisation is returned; otherwise the merged file's bytes are returned unchanged; it fails only when both re-serialisation and the raw read fail, always with the same message |
| `GlobalExceptionHandler.HandleMaxSizeException` | src/main/java/com/example/PDFMerger/PdfMerger.java:116-124 | always a 413 with exactly the keys error, message, maxFileSize and maxRequestSize: error UPLOAD_SIZE_EXCEEDED, maxFileSize "100MB", maxRequestSize "250MB" |
| `GlobalExceptionHandler.SameLimitsAsGuard` | src/main/java/com/example/PDFMerger/PdfMerger.java:116-124 | the framework-level 413 reports the same limit strings, under the same keys, as the controller's two size rejections |
| `TempStore.TempFiles.CreateTemp` | src/main/java/com/example/PDFMerger/PdfMerger.java:65 | either throws and changes nothing, or adds a new empty file under a name that was not live and logs that name as created |
| `TempStore.TempFiles.Write` | src/main/java/com/example/PDFMerger/PdfMerger.java:68-70 | the target path then holds exactly the given bytes; no other file changes |
| `TempStore.TempFiles.DeleteIfExists` | src/main/java/com/example/PDFMerger/PdfMerger.java:103-109 | logs the attempt; removes the path unless the delete throws, in which case nothing else changes |
| `PdfMerger.StagingFailureIsFirst` | src/main/java/com/example/PDFMerger/PdfMerger.java:64-76 | staging throws if and only if some upload's file creation, copy or `addSource` throws, and the exception is that of the first such upload |
| `PdfMerger.StagedCountAtFirstFailure` | src/main/java/com/example/PDFMerger/PdfMerger.java:64-76 | when upload j is the first whose staging throws, exactly j + 1 input files were created, or j when creating upload j's own file threw |
| `PdfMerger.StagedCountWithoutFailure` | src/main/java/com/example/PDFMerger/PdfMerger.java:64-76 | when no upload's staging throws, exactly one input file is created per upload |
| `PdfMerger.StageUpload` | src/main/java/com/example/PDFMerger/PdfMerger.java:65-73 | a created input file is tracked whether or not its copy succeeds; a successful copy leaves the upload's bytes in it, even if `addSource` then throws; a failed creation creates nothing; no pre-existing file changes |
| `PdfMerger.StageInputs` | src/main/java/com/example/PDFMerger/PdfMerger.java:64-76 | stops at the first exception: it creates one input file per upload up to it, plus the failing upload's own file unless its creation threw, and nothing after it; tracks every input file created, in creation order; without an exception, has one merge source per upload, in upload order, each holding that upload's bytes |
| `PdfMerger.Stage` | src/main/java/com/example/PDFMerger/PdfMerger.java:60-84 | the try block's outcome is `MergeOutcome`: the merge is given the uploads' bytes in upload order; the output file exists exactly when its creation did not throw, and then is followed by the inputs staged; all files created are returned for cleanup, in creation order |
| `PdfMerger.Cleanup` | src/main/java/com/example/PDFMerger/PdfMerger.java:92-110 | attempts delete-if-exists on the output file (if any) and then on every tracked input, in order; a throwing delete stops nothing; exactly the files whose delete did not throw are removed |
| `PdfMerger.CleanupLeavesOnlyFailedDeletes` | src/main/java/com/example/PDFMerger/PdfMerger.java:92-110 | after staging and cleanup, the live files are the ones from before plus those created files whose delete threw; if no delete throws, the filesystem is as before |
| `PdfMerger.MergePdfFile` | src/main/java/com/example/PDFMerger/PdfMerger.java:33-111 | returns `ExpectedResponse`; creates exactly `CreatedCount` temp files: none on a size rejection or a failed output creation, else the output file plus the inputs staged up to the first exception; on every exit path, each created file gets one delete attempt, in creation order; only the created files whose delete threw remain; earlier files are untouched |
| `PdfMerger.ResponseKinds` | src/main/java/com/example/PDFMerger/PdfMerger.java:81-91 | every response is one of: a 413 (exactly when the guard rejects); a 200 carrying the PDF as the merged.pdf attachment; or a 500 with error PROCESSING_ERROR and a message starting "Error occurred during merging: " |
| `PdfMerger.SuccessIff` | src/main/java/com/example/PDFMerger/PdfMerger.java:60-84 | 200 if and only if the guard passes, nothing throws up to the merge, the merge succeeds, and either re-serialisation or the raw read succeeds; the PDF sent is the merge of the uploads in order, or its re-serialisation |
| `PdfMerger.CompressionFallback` | src/main/java/com/example/PDFMerger/PdfMerger.java:78-84 | when re-serialisation fails but the raw read works, the response is a 200 carrying the merged PDF byte for byte |
| `PdfMerger.FallbackReadFailure` | src/main/java/com/example/PDFMerger/PdfMerger.java:86-91 | when the raw read fails as well, the response is the 500 for the message "Failed to read file after compression error" |
| `PdfMerger.FirstStagingExceptionIsReported` | src/main/java/com/example/PDFMerger/PdfMerger.java:64-91 | the first upload whose file creation, copy or `addSource` throws determines the 500's message |
| `PdfMerger.NoUploadsReachMerge` | src/main/java/com/example/PDFMerger/PdfMerger.java:39-78 | a request with no uploads is never a 413, whatever the environment; once its output file exists, it reaches the merge with no sources, and the merge's outcome decides between a 200 and a 500 |

## Left out

- Spring routing, the cross-origin restriction and multipart decoding are framework plumbing. An upload is modelled as its original filename, its declared size and its bytes.
- The PDF library is modelled only through oracles: `addSource`, the merge, `Loader.loadPDF` and `PDDocument.save`. PDF structure and page trees are not modelled, so "page count equals the sum of the inputs' page counts" is not stated.
- `formatFileSize` for 1024 bytes and above uses a floating-point logarithm, a power and `%.1f` formatting. It is a parameter (`scaled`, `Env.formatScaled`), not a definition.
- Temp-file name prefixes and suffixes (`merged_`, `input_`, `.pdf`) are not modelled. Names are modelled as a counter, so a new name is never a live one. Uniqueness across concurrent requests is not modelled.
- `printStackTrace` logging has no effect on the response and is left out.
- SizeGuard.CheckSizes: `totalSize` is an unbounded integer, not a 64-bit long. `PassingTotalFitsInLong` shows that the two agree for up to 2^36 passing uploads. The one addition that could overflow is followed by a rejection that does not read the total.
- PdfMerger.StageUpload: when the copy throws, the model leaves the input file empty. Its delete is attempted either way. If that delete throws, the file left behind is empty in the model. In the source it holds whatever was written before the exception: part of the upload, or all of it when only closing the upload stream threw. `Files.copy` with REPLACE_EXISTING first deletes the file and then creates it again. If that re-creation throws, the source has no file left, while the model keeps an empty one, which remains if its delete throws.
- A null original filename or a null exception message would be rendered by Java as "null". The model takes both as plain strings.
- Error responses carry no headers in the model. The JSON content type that the framework adds is not modelled.
- PdfMerger.MergePdfFile: states which temp files remain after a throwing delete, but not the bytes they hold. Those bytes are the upload, the merged PDF or nothing, depending on how far staging got, and no response depends on them.
- The response is built before the `finally` block runs and does not depend on it. The model computes it first and runs `Cleanup` afterwards.
