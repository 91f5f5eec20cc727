/**
 * The `POST /api/merge` handler, `mergePdfFile`: the size guard, staging each
 * upload into its own temp file in upload order, the merge, the compression
 * pass, the mapping of any exception to a 500, and the `finally` block that
 * tries to delete every temp file the request created.
 *
 * The PDF library, the upload streams and the filesystem calls that can
 * throw are oracles gathered in `Env`; the filesystem itself is a `TempFiles`.
 */
module PdfMerger {
  import opened Base
  import opened Http
  import opened FileSize
  import opened SizeGuard
  import opened Compressor
  import opened TempStore

  /** What the world outside the controller does during one request. */
  datatype Env = Env(
    createOutput: Io,                    // creating the "merged_" temp file
    createInput: nat -> Io,              // creating the "input_" temp file of the i-th upload
    copy: nat -> Io,                     // opening the i-th upload's stream and copying it
    addSource: nat -> Io,                // registering the i-th input file as a merge source
    merge: seq<Bytes> -> Result<Bytes>,  // merging the sources' bytes, in order, into one PDF
    reserialize: Bytes -> Result<Bytes>, // loading the merged PDF and saving it again
    readRaw: Io,                         // reading the merged file's bytes in the fallback
    deleteFails: set<Path>,              // the paths whose delete-if-exists throws
    formatScaled: int -> string)         // formatFileSize on 1024 bytes and above

  const ProcessingPrefix: string := "Error occurred during merging: "

  function ProcessingError(message: string): Response
  {
    ErrorResponse(INTERNAL_SERVER_ERROR, map[
      "error" := "PROCESSING_ERROR",
      "message" := ProcessingPrefix + message])
  }

  function MergedPdf(pdf: Bytes): Response
  {
    Response(OK, map[
      "Content-Disposition" := "attachment; filename=merged.pdf",
      "Content-Type" := "application/pdf"], Pdf(pdf))
  }

  /** The uploads' bytes, in upload order: what the merge must be given. */
  function Contents(files: seq<Upload>): seq<Bytes>
  {
    seq(|files|, i requires 0 <= i < |files| => files[i].content)
  }

  /** The bytes the files at `paths` hold, in that order. */
  function ReadAll(live: map<Path, Bytes>, paths: seq<Path>): seq<Bytes>
    requires forall k :: 0 <= k < |paths| ==> paths[k] in live
  {
    seq(|paths|, k requires 0 <= k < |paths| && paths[k] in live => live[paths[k]])
  }

  /** The names `from`, `from + 1`, ..., `to - 1`, in that order. */
  function NamesFrom(from: nat, to: nat): seq<Path>
    requires from <= to
  {
    seq(to - from, k requires 0 <= k < to - from => from + k)
  }

  lemma NamesFromStep(from: nat, to: nat)
    requires from <= to
    ensures NamesFrom(from, to + 1) == NamesFrom(from, to) + [to]
  {
  }

  lemma NamesFromCons(from: nat, to: nat)
    requires from < to
    ensures NamesFrom(from, to) == [from] + NamesFrom(from + 1, to)
  {
  }

  /** Reading back the staged sources gives the uploads' bytes, in upload order. */
  lemma ReadBackStaged(live: map<Path, Bytes>, sources: seq<Path>, files: seq<Upload>)
    requires |sources| == |files|
    requires forall k :: 0 <= k < |sources| ==> sources[k] in live && live[sources[k]] == files[k].content
    ensures ReadAll(live, sources) == Contents(files)
  {
  }

  lemma NamesFromMembers(from: nat, to: nat, p: Path)
    requires from <= to
    ensures p in NamesFrom(from, to) <==> from <= p < to
  {
    if from <= p < to {
      assert NamesFrom(from, to)[p - from] == p;
    }
  }

  /** The temp files one request has created: the merged output (if any) first, then the inputs. */
  function Staged(merged: Option<Path>, tracked: seq<Path>): seq<Path>
  {
    (if merged.Some? then [merged.value] else []) + tracked
  }

  /**
   * The exception staging the `j`-th upload throws, if any: creating its
   * file, else copying into it, else registering it as a merge source.
   */
  function FailureAt(env: Env, j: nat): Option<string>
  {
    if env.createInput(j).Throws? then Some(env.createInput(j).message)
    else if env.copy(j).Throws? then Some(env.copy(j).message)
    else if env.addSource(j).Throws? then Some(env.addSource(j).message)
    else None
  }

  /** The exception of the first upload, from the `i`-th on, whose staging throws. */
  function StagingFailure(n: nat, env: Env, i: nat): Option<string>
    decreases n - i
  {
    if i >= n then None
    else if FailureAt(env, i).Some? then FailureAt(env, i)
    else StagingFailure(n, env, i + 1)
  }

  /** Uploads whose staging completes can be skipped when looking for the first exception. */
  lemma {:induction false} StagingFailureSkips(n: nat, env: Env, i: nat)
    requires forall j :: 0 <= j < i ==> FailureAt(env, j).None?
    ensures StagingFailure(n, env, 0) == StagingFailure(n, env, i)
  {
    if i > 0 {
      StagingFailureSkips(n, env, i - 1);
    }
  }

  /**
   * Staging from the `i`-th upload throws exactly when some upload's staging
   * throws, and the exception is that of the first such upload.
   */
  lemma {:induction false} StagingFailureIsFirst(n: nat, env: Env, i: nat)
    ensures StagingFailure(n, env, i).None? <==> forall j :: i <= j < n ==> FailureAt(env, j).None?
    ensures StagingFailure(n, env, i).Some? ==>
      exists j :: (i <= j < n && FailureAt(env, j) == StagingFailure(n, env, i) &&
                   forall k :: i <= k < j ==> FailureAt(env, k).None?)
    decreases n - i
  {
    if i < n && FailureAt(env, i).None? {
      StagingFailureIsFirst(n, env, i + 1);
      if StagingFailure(n, env, i).Some? {
        var j :| i + 1 <= j < n && FailureAt(env, j) == StagingFailure(n, env, i + 1) &&
                 forall k :: i + 1 <= k < j ==> FailureAt(env, k).None?;
        assert forall k :: i <= k < j ==> FailureAt(env, k).None?;
      }
    }
  }

  /**
   * How many input files staging creates from the `i`-th upload on: one per
   * upload up to the first whose staging throws, which adds none if creating
   * its file threw and one otherwise.
   */
  function StagedCount(n: nat, env: Env, i: nat): nat
    decreases n - i
  {
    if i >= n || env.createInput(i).Throws? then 0
    else if FailureAt(env, i).Some? then 1
    else 1 + StagedCount(n, env, i + 1)
  }

  /** Uploads whose staging completes each add one input file before the `i`-th. */
  lemma {:induction false} StagedCountSkips(n: nat, env: Env, i: nat)
    requires i <= n
    requires forall j :: 0 <= j < i ==> FailureAt(env, j).None?
    ensures StagedCount(n, env, 0) == i + StagedCount(n, env, i)
  {
    if i > 0 {
      StagedCountSkips(n, env, i - 1);
      assert FailureAt(env, i - 1).None?;
      assert StagedCount(n, env, i - 1) == 1 + StagedCount(n, env, i);
    }
  }

  /**
   * When the `j`-th upload is the first whose staging throws, the inputs
   * created are the `j` before it, plus its own unless creating it threw.
   */
  lemma StagedCountAtFirstFailure(n: nat, env: Env, j: nat)
    requires j < n && FailureAt(env, j).Some?
    requires forall k :: 0 <= k < j ==> FailureAt(env, k).None?
    ensures StagedCount(n, env, 0) == j + (if env.createInput(j).Throws? then 0 else 1)
  {
    StagedCountSkips(n, env, j);
  }

  /** When no upload's staging throws, there is one input file per upload. */
  lemma StagedCountWithoutFailure(n: nat, env: Env)
    requires forall j :: 0 <= j < n ==> FailureAt(env, j).None?
    ensures StagedCount(n, env, 0) == n
  {
    StagedCountSkips(n, env, n);
  }

  /** What the body of the try block, past the size guard, produces: the PDF to send or an exception. */
  function MergeOutcome(files: seq<Upload>, env: Env): Result<Bytes>
  {
    if env.createOutput.Throws? then Err(env.createOutput.message)
    else match StagingFailure(|files|, env, 0)
      case Some(m) => Err(m)
      case None =>
        match env.merge(Contents(files))
        case Err(m) => Err(m)
        case Ok(doc) => CompressPdf(doc, env.reserialize, env.readRaw)
  }

  /** The response `mergePdfFile` sends. */
  function ExpectedResponse(files: seq<Upload>, env: Env): Response
  {
    match SizeVerdict(files, env.formatScaled)
    case Some(rejection) => rejection
    case None =>
      match MergeOutcome(files, env)
      case Ok(pdf) => MergedPdf(pdf)
      case Err(m) => ProcessingError(m)
  }

  /** The guard passes and nothing in the try block throws before the compression pass. */
  predicate ReachesCompression(files: seq<Upload>, env: Env)
  {
    SizeVerdict(files, env.formatScaled).None? && env.createOutput.Completes? &&
    (forall j :: 0 <= j < |files| ==> FailureAt(env, j).None?) &&
    env.merge(Contents(files)).Ok?
  }

  /**
   * Every response is a 413 exactly when the guard rejects, a 500 carrying
   * PROCESSING_ERROR and the fixed message prefix, or a 200 carrying the PDF
   * as the merged.pdf attachment.
   */
  lemma ResponseKinds(files: seq<Upload>, env: Env)
    ensures var r := ExpectedResponse(files, env);
      r.status in {OK, PAYLOAD_TOO_LARGE, INTERNAL_SERVER_ERROR} &&
      (r.status == PAYLOAD_TOO_LARGE <==> SizeVerdict(files, env.formatScaled).Some?) &&
      (r.status == OK <==> r.body.Pdf?) &&
      (r.status == OK ==> r.headers["Content-Type"] == "application/pdf" &&
                          r.headers["Content-Disposition"] == "attachment; filename=merged.pdf") &&
      (r.status == INTERNAL_SERVER_ERROR ==>
        r.body.Fields? && r.body.fields.Keys == {"error", "message"} &&
        r.body.fields["error"] == "PROCESSING_ERROR" &&
        ProcessingPrefix <= r.body.fields["message"])
  {
    if SizeVerdict(files, env.formatScaled).Some? {
      SizeGuard.RejectionIsPayloadTooLarge(files, env.formatScaled);
    }
  }

  /**
   * A 200 is sent exactly when the guard passes, nothing throws up to the
   * merge, and the compression pass has something to return; the PDF sent is
   * then the merge of the uploads, one source per upload in upload order, or
   * its re-serialisation.
   */
  lemma SuccessIff(files: seq<Upload>, env: Env)
    ensures ExpectedResponse(files, env).status == OK <==>
      ReachesCompression(files, env) &&
      (env.reserialize(env.merge(Contents(files)).value).Ok? || env.readRaw.Completes?)
    ensures ExpectedResponse(files, env).status == OK ==>
      var doc := env.merge(Contents(files)).value;
      var sent := ExpectedResponse(files, env).body.bytes;
      Ok(sent) == env.reserialize(doc) || sent == doc
  {
    StagingFailureIsFirst(|files|, env, 0);
  }

  /**
   * When re-serialisation fails but the merged file can be read, the request
   * still succeeds and sends the merged file byte for byte.
   */
  lemma CompressionFallback(files: seq<Upload>, env: Env)
    requires ReachesCompression(files, env)
    requires env.reserialize(env.merge(Contents(files)).value).Err? && env.readRaw.Completes?
    ensures ExpectedResponse(files, env) == MergedPdf(env.merge(Contents(files)).value)
  {
    StagingFailureIsFirst(|files|, env, 0);
  }

  /** When the fallback read fails too, the request ends in a 500 with a fixed message. */
  lemma FallbackReadFailure(files: seq<Upload>, env: Env)
    requires ReachesCompression(files, env)
    requires env.reserialize(env.merge(Contents(files)).value).Err? && env.readRaw.Throws?
    ensures ExpectedResponse(files, env) ==
      ProcessingError("Failed to read file after compression error")
  {
    StagingFailureIsFirst(|files|, env, 0);
  }

  /**
   * An exception while staging the `j`-th upload, the first one to throw,
   * becomes the 500's message; later uploads never reach the merge.
   */
  lemma FirstStagingExceptionIsReported(files: seq<Upload>, env: Env, j: nat)
    requires SizeVerdict(files, env.formatScaled).None? && env.createOutput.Completes?
    requires j < |files| && FailureAt(env, j).Some?
    requires forall k :: 0 <= k < j ==> FailureAt(env, k).None?
    ensures ExpectedResponse(files, env) == ProcessingError(FailureAt(env, j).value)
  {
    StagingFailureSkips(|files|, env, j);
  }

  /**
   * No uploads at all pass the guard and reach the merge with no sources;
   * what the merge makes of that decides between a 200 and a 500.
   */
  lemma NoUploadsReachMerge(env: Env)
    ensures ExpectedResponse([], env).status != PAYLOAD_TOO_LARGE
    ensures env.createOutput.Completes? && env.merge([]).Err? ==>
      ExpectedResponse([], env) == ProcessingError(env.merge([]).message)
    ensures env.createOutput.Completes? && env.merge([]).Ok? &&
            env.reserialize(env.merge([]).value).Err? && env.readRaw.Completes? ==>
      ExpectedResponse([], env) == MergedPdf(env.merge([]).value)
  {
    assert Contents([]) == [];
    ResponseKinds([], env);
  }

  /** `live` is `live0` plus new files under the names `from` .. `to - 1`, with `live0`'s files untouched. */
  ghost predicate Grown(live: map<Path, Bytes>, live0: map<Path, Bytes>, from: nat, to: nat)
  {
    (forall p :: p in live <==> p in live0 || from <= p < to) &&
    (forall p :: p in live0 ==> live[p] == live0[p])
  }

  /** The file at `sources[k]` holds the `k`-th upload. */
  ghost predicate HoldsUploads(live: map<Path, Bytes>, sources: seq<Path>, files: seq<Upload>)
  {
    |sources| <= |files| &&
    forall k :: 0 <= k < |sources| ==> sources[k] in live && live[sources[k]] == files[k].content
  }

  /**
   * The output file `out` is created first, then the inputs under the names
   * after it; whatever the merge later writes into `out`, the files created
   * are exactly `out` .. `to - 1`.
   */
  lemma OutputThenInputs(live0: map<Path, Bytes>, live: map<Path, Bytes>, out: nat, to: nat, data: Bytes)
    requires forall p :: p in live0 ==> p < out
    requires out < to
    requires Grown(live, live0[out := []], out + 1, to)
    ensures Grown(live, live0, out, to)
    ensures Grown(live[out := data], live0, out, to)
  {
  }

  /**
   * One turn of the staging loop for the `i`-th upload: create its input
   * file, track it, copy the upload into it, then register it as a merge
   * source.
   */
  method StageUpload(fs: TempFiles, files: seq<Upload>, env: Env, i: nat, tracked: seq<Path>,
                     ghost live0: map<Path, Bytes>, ghost from: nat)
      returns (tracked': seq<Path>, failure: Option<string>)
    requires fs.Valid() && i < |files|
    requires from <= fs.next && (forall p :: p in live0 ==> p < from)
    requires Grown(fs.contents, live0, from, fs.next)
    requires |tracked| == i && (forall k :: 0 <= k < i ==> tracked[k] < fs.next)
    requires HoldsUploads(fs.contents, tracked, files)
    modifies fs
    ensures fs.Valid()
    ensures failure == FailureAt(env, i)
    ensures fs.attempted == old(fs.attempted)
    ensures Grown(fs.contents, live0, from, fs.next)
    ensures env.createInput(i).Throws? ==>
      tracked' == tracked && fs.next == old(fs.next) && fs.created == old(fs.created)
    // once created, the file is tracked whether or not the copy succeeds
    ensures env.createInput(i).Completes? ==>
      tracked' == tracked + [old(fs.next)] &&
      fs.next == old(fs.next) + 1 && fs.created == old(fs.created) + [old(fs.next)]
    // a completed copy leaves the upload in the file, even if registering it then throws
    ensures env.createInput(i).Completes? && env.copy(i).Completes? ==>
      old(fs.next) in fs.contents && fs.contents[old(fs.next)] == files[i].content
    ensures failure.None? ==> HoldsUploads(fs.contents, tracked', files)
  {
    var input := fs.CreateTemp(env.createInput(i));
    if input.Err? {
      return tracked, Some(input.message);
    }
    tracked' := tracked + [input.value];
    if env.copy(i).Throws? {
      return tracked', Some(env.copy(i).message);
    }
    fs.Write(input.value, files[i].content);
    if env.addSource(i).Throws? {
      return tracked', Some(env.addSource(i).message);
    }
    failure := None;
  }

  /**
   * The staging loop: stage each upload in order and add it as a merge
   * source. Stops at the first exception, with every file created so far
   * tracked.
   */
  method StageInputs(fs: TempFiles, files: seq<Upload>, env: Env)
      returns (tracked: seq<Path>, sources: seq<Path>, failure: Option<string>)
    requires fs.Valid()
    modifies fs
    ensures fs.Valid()
    ensures old(fs.next) <= fs.next
    ensures failure == StagingFailure(|files|, env, 0)
    // every input file created is tracked, in creation order
    ensures tracked == NamesFrom(old(fs.next), fs.next)
    // one input per upload up to the first exception, and none after it
    ensures |tracked| == StagedCount(|files|, env, 0)
    ensures fs.created == old(fs.created) + tracked
    ensures fs.attempted == old(fs.attempted)
    ensures Grown(fs.contents, old(fs.contents), old(fs.next), fs.next)
    // without an exception, one source per upload, holding that upload, in upload order
    ensures failure.None? ==> sources == tracked && |sources| == |files|
    ensures failure.None? ==> HoldsUploads(fs.contents, sources, files)
  {
    tracked, sources := [], [];
    ghost var next0, live0, created0, attempted0 := fs.next, fs.contents, fs.created, fs.attempted;
    var i := 0;
    while i < |files|
      invariant 0 <= i <= |files|
      invariant fs.Valid()
      invariant |tracked| == i && sources == tracked && fs.next == next0 + i
      invariant tracked == NamesFrom(next0, fs.next)
      invariant fs.created == created0 + tracked
      invariant fs.attempted == attempted0
      invariant Grown(fs.contents, live0, next0, fs.next)
      invariant HoldsUploads(fs.contents, sources, files)
      invariant forall j :: 0 <= j < i ==> FailureAt(env, j).None?
    {
      NamesFromStep(next0, fs.next);
      tracked, failure := StageUpload(fs, files, env, i, tracked, live0, next0);
      if failure.Some? {
        StagingFailureSkips(|files|, env, i);
        StagedCountAtFirstFailure(|files|, env, i);
        return;
      }
      sources := sources + [tracked[i]];
      i := i + 1;
    }
    StagingFailureSkips(|files|, env, i);
    StagedCountWithoutFailure(|files|, env);
    return tracked, sources, None;
  }

  /**
   * The try block past the guard: create the output file, stage the inputs,
   * merge the sources into the output file, compress it. Returns what it
   * created, for the `finally` block, and the outcome.
   */
  method Stage(fs: TempFiles, files: seq<Upload>, env: Env)
      returns (merged: Option<Path>, tracked: seq<Path>, result: Result<Bytes>)
    requires fs.Valid()
    modifies fs
    ensures fs.Valid()
    ensures old(fs.next) <= fs.next
    ensures result == MergeOutcome(files, env)
    // the output file exists exactly when creating it did not throw
    ensures merged.None? <==> env.createOutput.Throws?
    ensures merged.None? ==> tracked == []
    ensures merged.Some? ==> |tracked| == StagedCount(|files|, env, 0)
    // everything created is handed back for cleanup, in creation order
    ensures Staged(merged, tracked) == NamesFrom(old(fs.next), fs.next)
    ensures fs.created == old(fs.created) + Staged(merged, tracked)
    ensures fs.attempted == old(fs.attempted)
    ensures Grown(fs.contents, old(fs.contents), old(fs.next), fs.next)
  {
    var out := fs.CreateTemp(env.createOutput);
    if out.Err? {
      assert Staged(None, []) == [] == NamesFrom(fs.next, fs.next);
      return None, [], Err(out.message);
    }
    merged := Some(out.value);
    ghost var live0, created1 := old(fs.contents), fs.created;
    var sources, failure;
    tracked, sources, failure := StageInputs(fs, files, env);
    NamesFromCons(out.value, fs.next);
    assert Staged(merged, tracked) == [out.value] + tracked == NamesFrom(old(fs.next), fs.next);
    assert fs.created == created1 + tracked == old(fs.created) + ([out.value] + tracked);
    OutputThenInputs(live0, fs.contents, out.value, fs.next, []);
    if failure.Some? {
      return merged, tracked, Err(failure.value);
    }
    var docs := ReadAll(fs.contents, sources);
    ReadBackStaged(fs.contents, sources, files);
    var doc := env.merge(docs);
    if doc.Err? {
      return merged, tracked, Err(doc.message);
    }
    OutputThenInputs(live0, fs.contents, out.value, fs.next, doc.value);
    fs.Write(out.value, doc.value);
    result := CompressPdf(fs.contents[out.value], env.reserialize, env.readRaw);
  }

  /**
   * The finally block: delete-if-exists on the output file, if it was
   * created, and then on every tracked input; a delete that throws is
   * swallowed and the loop goes on.
   */
  method Cleanup(fs: TempFiles, merged: Option<Path>, tracked: seq<Path>, deleteFails: set<Path>)
    requires fs.Valid()
    modifies fs
    ensures fs.Valid()
    ensures fs.attempted == old(fs.attempted) + Staged(merged, tracked)
    ensures forall p :: p in fs.contents <==>
      p in old(fs.contents) && (p !in Staged(merged, tracked) || p in deleteFails)
    ensures forall p :: p in fs.contents ==> fs.contents[p] == old(fs.contents)[p]
    ensures fs.next == old(fs.next) && fs.created == old(fs.created)
  {
    if merged.Some? {
      fs.DeleteIfExists(merged.value, merged.value in deleteFails);
    }
    for i := 0 to |tracked|
      invariant fs.Valid()
      invariant fs.attempted == old(fs.attempted) + Staged(merged, tracked[..i])
      invariant forall p :: p in fs.contents <==>
        p in old(fs.contents) && (p !in Staged(merged, tracked[..i]) || p in deleteFails)
      invariant forall p :: p in fs.contents ==> fs.contents[p] == old(fs.contents)[p]
      invariant fs.next == old(fs.next) && fs.created == old(fs.created)
    {
      assert tracked[..i + 1] == tracked[..i] + [tracked[i]];
      fs.DeleteIfExists(tracked[i], tracked[i] in deleteFails);
    }
    assert tracked[..|tracked|] == tracked;
  }

  /**
   * Staging adds the fresh names `from` .. `to - 1` to `before`, giving
   * `staged`; cleanup removes those of them whose delete does not throw,
   * giving `after`. Then only the throwing ones are left beside `before`.
   */
  lemma CleanupLeavesOnlyFailedDeletes(before: map<Path, Bytes>, staged: map<Path, Bytes>,
                                       after: map<Path, Bytes>, from: nat, to: nat, deleteFails: set<Path>)
    requires from <= to
    requires forall p :: p in before ==> p < from
    requires Grown(staged, before, from, to)
    requires forall p :: p in after <==> p in staged && (p !in NamesFrom(from, to) || p in deleteFails)
    requires forall p :: p in after ==> after[p] == staged[p]
    ensures forall p :: p in after <==> p in before || (from <= p < to && p in deleteFails)
    ensures forall p :: p in before ==> after[p] == before[p]
    ensures (forall p :: from <= p < to ==> p !in deleteFails) ==> after == before
  {
    forall p: Path
      ensures p in NamesFrom(from, to) <==> from <= p < to
    {
      NamesFromMembers(from, to, p);
    }
  }

  /**
   * How many temp files `mergePdfFile` creates: none when the guard rejects
   * or creating the output file throws; otherwise the output file and the
   * inputs staged.
   */
  function CreatedCount(files: seq<Upload>, env: Env): nat
  {
    if SizeVerdict(files, env.formatScaled).Some? || env.createOutput.Throws? then 0
    else 1 + StagedCount(|files|, env, 0)
  }

  /**
   * `mergePdfFile`. The response is `ExpectedResponse`; every temp file the
   * request creates gets one delete-if-exists attempt, in creation order, on
   * every exit path; afterwards only those whose delete threw remain, and no
   * file that existed before is touched. A size rejection creates nothing.
   */
  method MergePdfFile(fs: TempFiles, files: seq<Upload>, env: Env) returns (resp: Response)
    requires fs.Valid()
    modifies fs
    ensures fs.Valid()
    ensures resp == ExpectedResponse(files, env)
    ensures fs.next == old(fs.next) + CreatedCount(files, env)
    ensures fs.created == old(fs.created) + NamesFrom(old(fs.next), fs.next)
    ensures fs.attempted == old(fs.attempted) + NamesFrom(old(fs.next), fs.next)
    ensures forall p :: p in fs.contents <==>
      p in old(fs.contents) || (old(fs.next) <= p < fs.next && p in env.deleteFails)
    ensures forall p :: p in old(fs.contents) ==> fs.contents[p] == old(fs.contents)[p]
    ensures (forall p :: old(fs.next) <= p < fs.next ==> p !in env.deleteFails) ==>
      fs.contents == old(fs.contents)
    ensures SizeVerdict(files, env.formatScaled).Some? ==>
      fs.contents == old(fs.contents) && fs.next == old(fs.next)
  {
    var rejection := CheckSizes(files, env.formatScaled);
    if rejection.Some? {
      // nothing is created yet, so the finally block has nothing to delete
      resp := rejection.value;
      assert |NamesFrom(fs.next, fs.next)| == 0;
      return;
    }
    ghost var before, from := fs.contents, fs.next;
    var merged, tracked, result := Stage(fs, files, env);
    resp := match result
      case Ok(pdf) => MergedPdf(pdf)
      case Err(m) => ProcessingError(m);
    ghost var staged := fs.contents;
    Cleanup(fs, merged, tracked, env.deleteFails);
    CleanupLeavesOnlyFailedDeletes(before, staged, fs.contents, from, fs.next, env.deleteFails);
  }
}
