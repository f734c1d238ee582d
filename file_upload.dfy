/**
 * The upload component: validates chosen files into a selection, then uploads the selection one file
 * at a time, stopping at the first failure, while keeping a most-recent-first history of attempts.
 */
module Upload {

  const ALLOWED_TYPES: seq<string> := [
    "image/jpeg", "image/jpg", "image/png", "application/pdf",
    "application/vnd.openxmlformats-officedocument.wordprocessingml.document",
    "text/plain", "application/zip"]
  const MAX_FILE_SIZE_MB: nat := 10
  /** Computed once from the initial `maxFileSize` of 10, when the component is created. */
  const MAX_FILE_SIZE_BYTES: nat := MAX_FILE_SIZE_MB * 1024 * 1024

  const READY := "Ready to upload"
  const UPLOADING := "Uploading..."
  const COMPLETED := "Upload completed"
  const FAILED := "Upload failed"

  /** A browser `File`: name, size in bytes and declared MIME type. */
  datatype File = File(name: string, size: nat, fileType: string)

  /** The component's form state. */
  datatype Config = Config(gcsBucket: string, destinationPath: string, maxFileSize: nat, status: string)

  datatype UploadStatus = Uploading | Success | Error

  /** A progress value; `Math.round` of a division by a zero or missing total is not finite. */
  datatype Progress = Percent(value: int) | NonFinite

  /** One history entry, `uploadDate` in milliseconds since the epoch. */
  datatype UploadedFile = UploadedFile(
    name: string, size: nat, fileType: string, uploadDate: nat, status: UploadStatus, progress: Progress)

  /** The multipart form posted for one file. */
  datatype UploadForm = UploadForm(file: File, bucket: string, destinationPath: string)

  // ---------------------------------------------------------------------------------------------
  // Validation

  /** Which check a file fails, if any (the alert it raises); the type check comes first. */
  datatype Validation = Accepted | TypeNotAllowed | TooLarge

  /** An alert raised while selecting files. */
  datatype Rejection = Rejection(file: File, reason: Validation)

  /** validateFile. */
  function ValidateFile(f: File): (v: Validation)
    ensures v == Accepted <==> f.fileType in ALLOWED_TYPES && f.size <= MAX_FILE_SIZE_BYTES
    ensures v == TypeNotAllowed <==> f.fileType !in ALLOWED_TYPES
  {
    if f.fileType !in ALLOWED_TYPES then TypeNotAllowed
    else if f.size > MAX_FILE_SIZE_BYTES then TooLarge
    else Accepted
  }

  /** The size bound is inclusive: exactly 10 MiB passes, one byte more is too large, and so is 15 MB. */
  lemma SizeLimitBoundary(name: string, fileType: string)
    requires fileType in ALLOWED_TYPES
    ensures ValidateFile(File(name, 10 * 1024 * 1024, fileType)) == Accepted
    ensures ValidateFile(File(name, 10 * 1024 * 1024 + 1, fileType)) == TooLarge
    ensures ValidateFile(File(name, 15 * 1024 * 1024, fileType)) == TooLarge
  {
  }

  /** The files of a batch that pass validation, in their original order. */
  function AcceptedFiles(files: seq<File>): (r: seq<File>)
    ensures |r| <= |files|
    ensures forall i :: 0 <= i < |r| ==> ValidateFile(r[i]) == Accepted
  {
    if files == [] then []
    else
      var last := files[|files| - 1];
      AcceptedFiles(files[..|files| - 1]) + (if ValidateFile(last) == Accepted then [last] else [])
  }

  /** The alerts a batch raises: one per rejected file, in order, with the failed check. */
  function Rejections(files: seq<File>): (r: seq<Rejection>)
    ensures forall i :: 0 <= i < |r| ==> r[i].reason != Accepted && r[i].reason == ValidateFile(r[i].file)
  {
    if files == [] then []
    else
      var last := files[|files| - 1];
      Rejections(files[..|files| - 1]) + (if ValidateFile(last) == Accepted then [] else [Rejection(last, ValidateFile(last))])
  }

  function RejectedFiles(rs: seq<Rejection>): seq<File>
  {
    if rs == [] then [] else RejectedFiles(rs[..|rs| - 1]) + [rs[|rs| - 1].file]
  }

  /** One more file adds itself to exactly one side of the selection. */
  lemma SelectionStep(init: seq<File>, last: File)
    ensures multiset(AcceptedFiles(init + [last])) ==
            multiset(AcceptedFiles(init)) + (if ValidateFile(last) == Accepted then multiset{last} else multiset{})
    ensures multiset(RejectedFiles(Rejections(init + [last]))) ==
            multiset(RejectedFiles(Rejections(init))) + (if ValidateFile(last) == Accepted then multiset{} else multiset{last})
  {
    var files := init + [last];
    assert files[..|files| - 1] == init && files[|files| - 1] == last;
    var rs := Rejections(init);
    if ValidateFile(last) == Accepted {
      assert AcceptedFiles(files) == AcceptedFiles(init) + [last];
      assert Rejections(files) == rs + [];
      assert rs + [] == rs;
    } else {
      assert AcceptedFiles(files) == AcceptedFiles(init) + [];
      assert AcceptedFiles(init) + [] == AcceptedFiles(init);
      var rs' := rs + [Rejection(last, ValidateFile(last))];
      assert Rejections(files) == rs';
      assert rs'[..|rs'| - 1] == rs;
      assert RejectedFiles(rs') == RejectedFiles(rs) + [last];
    }
  }

  /** Every file of a batch is either accepted or reported, exactly once. */
  lemma {:induction false} SelectionPartitions(files: seq<File>)
    ensures multiset(AcceptedFiles(files)) + multiset(RejectedFiles(Rejections(files))) == multiset(files)
  {
    if files != [] {
      var init, last := files[..|files| - 1], files[|files| - 1];
      assert files == init + [last];
      SelectionPartitions(init);
      SelectionStep(init, last);
      assert multiset(files) == multiset(init) + multiset{last};
    }
  }

  /** Filtering distributes over concatenation, so accepted files keep their relative order. */
  lemma {:induction false} AcceptedFilesConcat(xs: seq<File>, ys: seq<File>)
    ensures AcceptedFiles(xs + ys) == AcceptedFiles(xs) + AcceptedFiles(ys)
  {
    if ys != [] {
      var init := ys[..|ys| - 1];
      AcceptedFilesConcat(xs, init);
      assert (xs + ys)[..|xs + ys| - 1] == xs + init;
      assert (xs + ys)[|xs + ys| - 1] == ys[|ys| - 1];
    } else {
      assert xs + ys == xs;
    }
  }

  // ---------------------------------------------------------------------------------------------
  // Progress of one transfer

  /** `Math.round(100 * loaded / total)`, computed exactly as floor((200 loaded + total) / (2 total)). */
  function RoundedPercent(loaded: nat, total: nat): (p: Progress)
    ensures p.NonFinite? <==> total == 0
    ensures p.Percent? ==> 2 * total * p.value <= 200 * loaded + total < 2 * total * (p.value + 1)
  {
    if total == 0 then NonFinite else Percent((200 * loaded + total) / (2 * total))
  }

  lemma MulCancel(x: int, q: int, b: int)
    requires b > 0 && x * b < q * b
    ensures x < q
  {
  }

  lemma DivBelow(a: nat, b: nat, q: nat)
    requires b > 0 && a < b * q
    ensures a / b < q
  {
    assert (a / b) * b <= a;
    MulCancel(a / b, q, b);
  }

  lemma DivAtLeast(a: nat, b: nat, q: nat)
    requires b > 0 && b * q <= a
    ensures q <= a / b
  {
    assert a < (a / b + 1) * b;
    MulCancel(q, a / b + 1, b);
  }

  lemma DivMonotone(a: nat, a': nat, b: nat)
    requires b > 0 && a <= a'
    ensures a / b <= a' / b
  {
    assert (a / b) * b <= a;
    assert a' < (a' / b + 1) * b;
    MulCancel(a / b, a' / b + 1, b);
  }

  /** With 0 <= loaded <= total and a positive total, the percentage lies in 0..100. */
  lemma PercentInRange(loaded: nat, total: nat)
    requires 0 < total && loaded <= total
    ensures RoundedPercent(loaded, total).Percent?
    ensures 0 <= RoundedPercent(loaded, total).value <= 100
  {
    assert 200 * loaded + total < (2 * total) * 101;
    DivBelow(200 * loaded + total, 2 * total, 101);
  }

  /** A transfer whose every byte is acknowledged reports exactly 100. */
  lemma PercentComplete(total: nat)
    requires 0 < total
    ensures RoundedPercent(total, total) == Percent(100)
  {
    assert 200 * total + total < (2 * total) * 101;
    DivBelow(200 * total + total, 2 * total, 101);
    DivAtLeast(200 * total + total, 2 * total, 100);
  }

  /** More bytes acknowledged never lowers the reported percentage. */
  lemma PercentMonotone(loaded: nat, loaded': nat, total: nat)
    requires 0 < total && loaded <= loaded'
    ensures RoundedPercent(loaded, total).value <= RoundedPercent(loaded', total).value
  {
    DivMonotone(200 * loaded + total, 200 * loaded' + total, 2 * total);
  }

  /** An event from `http.post(..., { reportProgress: true, observe: 'events' })` before it settles. */
  datatype TransferEvent = UploadProgress(loaded: nat, total: nat) | OtherEvent

  /** One transfer as the environment delivers it: clock at the start, events, then response or error. */
  datatype Attempt = Attempt(startedAt: nat, events: seq<TransferEvent>, completed: bool)

  /** The record prepended when a file's upload starts. */
  function StartRecord(f: File, startedAt: nat): (r: UploadedFile)
    ensures r.status == Uploading && r.progress == Percent(0)
  {
    UploadedFile(f.name, f.size, f.fileType, startedAt, Uploading, Percent(0))
  }

  /** The `next` handler for an event: an upload-progress event sets the progress; others are ignored. */
  function OnEvent(r: UploadedFile, e: TransferEvent): (r': UploadedFile)
    ensures r' == r.(progress := r'.progress)
    ensures e.UploadProgress? ==> r'.progress == RoundedPercent(e.loaded, e.total)
    ensures e.OtherEvent? ==> r' == r
  {
    match e
    case UploadProgress(loaded, total) => r.(progress := RoundedPercent(loaded, total))
    case OtherEvent => r
  }

  /** The record after a run of events: only the progress can have changed. */
  function AfterEvents(r: UploadedFile, events: seq<TransferEvent>): (r': UploadedFile)
    ensures r' == r.(progress := r'.progress)
  {
    if events == [] then r else OnEvent(AfterEvents(r, events[..|events| - 1]), events[|events| - 1])
  }

  /** The events are what the transport promises: bytes acknowledged never exceed a positive total. */
  predicate WellFormedEvents(events: seq<TransferEvent>)
  {
    forall i :: 0 <= i < |events| && events[i].UploadProgress? ==>
      0 < events[i].total && events[i].loaded <= events[i].total
  }

  /** Without upload-progress events the record keeps its start value. */
  lemma {:induction false} NoProgressReported(r: UploadedFile, events: seq<TransferEvent>)
    requires forall i :: 0 <= i < |events| ==> !events[i].UploadProgress?
    ensures AfterEvents(r, events) == r
  {
    if events != [] {
      var init := events[..|events| - 1];
      assert forall i :: 0 <= i < |init| ==> init[i] == events[i];
      NoProgressReported(r, init);
    }
  }

  /** The progress after the events is that of the last upload-progress event. */
  lemma {:induction false} ProgressIsLastReported(r: UploadedFile, events: seq<TransferEvent>, j: nat)
    requires j < |events| && events[j].UploadProgress?
    requires forall i :: j < i < |events| ==> !events[i].UploadProgress?
    ensures AfterEvents(r, events).progress == RoundedPercent(events[j].loaded, events[j].total)
  {
    if j < |events| - 1 {
      var init := events[..|events| - 1];
      assert !events[|events| - 1].UploadProgress?;
      assert forall i :: 0 <= i < |init| ==> init[i] == events[i];
      ProgressIsLastReported(r, init, j);
    }
  }

  /** Starting in range, well-formed events keep the progress in 0..100. */
  lemma {:induction false} ProgressStaysInRange(r: UploadedFile, events: seq<TransferEvent>)
    requires r.progress.Percent? && 0 <= r.progress.value <= 100
    requires WellFormedEvents(events)
    ensures AfterEvents(r, events).progress.Percent?
    ensures 0 <= AfterEvents(r, events).progress.value <= 100
  {
    if events != [] {
      var init, last := events[..|events| - 1], events[|events| - 1];
      assert WellFormedEvents(init) by {
        assert forall i :: 0 <= i < |init| ==> init[i] == events[i];
      }
      ProgressStaysInRange(r, init);
      if last.UploadProgress? {
        PercentInRange(last.loaded, last.total);
      }
    }
  }

  /** The record a file's attempt leaves in the history. */
  function FinalRecord(f: File, a: Attempt): (r: UploadedFile)
    ensures r.name == f.name && r.size == f.size && r.fileType == f.fileType && r.uploadDate == a.startedAt
    ensures r.status == (if a.completed then Success else Error)
    ensures a.completed ==> r.progress == Percent(100)
    ensures !a.completed ==> r.progress == AfterEvents(StartRecord(f, a.startedAt), a.events).progress
  {
    var r := AfterEvents(StartRecord(f, a.startedAt), a.events);
    if a.completed then r.(status := Success, progress := Percent(100)) else r.(status := Error)
  }

  /** A failed well-formed transfer keeps a progress value in 0..100 (0 when nothing was reported). */
  lemma FailedProgressInRange(f: File, a: Attempt)
    requires !a.completed && WellFormedEvents(a.events)
    ensures FinalRecord(f, a).progress.Percent? && 0 <= FinalRecord(f, a).progress.value <= 100
  {
    ProgressStaysInRange(StartRecord(f, a.startedAt), a.events);
  }

  // ---------------------------------------------------------------------------------------------
  // The sequential batch

  /** The result of running a batch: the history, whether all succeeded, how many files were attempted. */
  datatype BatchRun = BatchRun(history: seq<UploadedFile>, completed: bool, attempted: nat)

  /** The batch run file by file: each attempt prepends its record; the first failure stops the run. */
  function RunBatch(files: seq<File>, attempts: seq<Attempt>, history: seq<UploadedFile>): (run: BatchRun)
    requires |attempts| == |files|
    ensures run.attempted <= |files| && (files != [] ==> run.attempted >= 1)
    decreases |files|
  {
    if files == [] then BatchRun(history, true, 0)
    else
      var h := [FinalRecord(files[0], attempts[0])] + history;
      if attempts[0].completed then
        var rest := RunBatch(files[1..], attempts[1..], h);
        rest.(attempted := rest.attempted + 1)
      else
        BatchRun(h, false, 1)
  }

  /** One step of the run: the first file's record goes on top, and a success continues with the rest. */
  lemma RunBatchStep(files: seq<File>, attempts: seq<Attempt>, history: seq<UploadedFile>)
    requires |attempts| == |files| && files != []
    ensures var run, h := RunBatch(files, attempts, history), [FinalRecord(files[0], attempts[0])] + history;
            && (attempts[0].completed ==>
                  var rest := RunBatch(files[1..], attempts[1..], h);
                  run.history == rest.history && run.completed == rest.completed && run.attempted == rest.attempted + 1)
            && (!attempts[0].completed ==> run == BatchRun(h, false, 1))
  {
  }

  /** The step of the run at file `i`, stated on suffixes of the batch. */
  lemma RunBatchSuffixStep(files: seq<File>, attempts: seq<Attempt>, i: nat, history: seq<UploadedFile>)
    requires |attempts| == |files| && i < |files|
    ensures var run, h := RunBatch(files[i..], attempts[i..], history), [FinalRecord(files[i], attempts[i])] + history;
            && (attempts[i].completed ==>
                  var rest := RunBatch(files[i + 1..], attempts[i + 1..], h);
                  run.history == rest.history && run.completed == rest.completed && run.attempted == rest.attempted + 1)
            && (!attempts[i].completed ==> run == BatchRun(h, false, 1))
  {
    assert files[i..][1..] == files[i + 1..] && attempts[i..][1..] == attempts[i + 1..];
    RunBatchStep(files[i..], attempts[i..], history);
  }

  /** The index of the first failing attempt, or the number of attempts when none fails. */
  function FirstFailure(attempts: seq<Attempt>): (k: nat)
    ensures k <= |attempts|
    ensures forall j :: 0 <= j < k ==> attempts[j].completed
    ensures k < |attempts| ==> !attempts[k].completed
  {
    if attempts == [] || !attempts[0].completed then 0 else 1 + FirstFailure(attempts[1..])
  }

  /** How far the run gets: through the first failure, or through every file when none fails. */
  lemma {:induction false} RunBatchExtent(files: seq<File>, attempts: seq<Attempt>, history: seq<UploadedFile>)
    requires |attempts| == |files|
    ensures var run, k := RunBatch(files, attempts, history), FirstFailure(attempts);
            && (run.completed <==> k == |files|)
            && run.attempted == (if k == |files| then k else k + 1)
            && |run.history| == |history| + run.attempted
            && run.history[run.attempted..] == history
    decreases |files|
  {
    if files != [] {
      var h := [FinalRecord(files[0], attempts[0])] + history;
      RunBatchStep(files, attempts, history);
      if attempts[0].completed {
        RunBatchExtent(files[1..], attempts[1..], h);
        assert FirstFailure(attempts) == 1 + FirstFailure(attempts[1..]);
        var rest := RunBatch(files[1..], attempts[1..], h);
        assert rest.history[rest.attempted..] == h;
        assert rest.history[rest.attempted + 1..] == h[1..];
        assert h[1..] == history;
      }
    }
  }

  /** The records of the attempted files sit most-recent-first on top of the old history. */
  lemma {:induction false} RunBatchOrder(files: seq<File>, attempts: seq<Attempt>, history: seq<UploadedFile>)
    requires |attempts| == |files|
    ensures var run := RunBatch(files, attempts, history);
            && |run.history| == |history| + run.attempted
            && forall j :: 0 <= j < run.attempted ==>
                 run.history[run.attempted - 1 - j] == FinalRecord(files[j], attempts[j])
    decreases |files|
  {
    if files != [] {
      var h := [FinalRecord(files[0], attempts[0])] + history;
      RunBatchStep(files, attempts, history);
      if attempts[0].completed {
        RunBatchOrder(files[1..], attempts[1..], h);
        RunBatchExtent(files[1..], attempts[1..], h);
        var rest := RunBatch(files[1..], attempts[1..], h);
        var run := RunBatch(files, attempts, history);
        forall j | 0 <= j < run.attempted
          ensures run.history[run.attempted - 1 - j] == FinalRecord(files[j], attempts[j])
        {
          if j == 0 {
            assert rest.history[rest.attempted..] == h;
            assert run.history[run.attempted - 1] == rest.history[rest.attempted..][0];
          } else {
            assert files[1..][j - 1] == files[j] && attempts[1..][j - 1] == attempts[j];
          }
        }
      }
    }
  }

  /**
   * Fail-fast: the batch succeeds iff no attempt fails; files up to and including the first failure
   * are attempted and no others; their records sit most-recent-first on top of the old history.
   */
  lemma RunBatchFailFast(files: seq<File>, attempts: seq<Attempt>, history: seq<UploadedFile>)
    requires |attempts| == |files|
    ensures var run, k := RunBatch(files, attempts, history), FirstFailure(attempts);
            && (run.completed <==> k == |files|)
            && run.attempted == (if k == |files| then k else k + 1)
            && |run.history| == |history| + run.attempted
            && run.history[run.attempted..] == history
            && forall j :: 0 <= j < run.attempted ==>
                 run.history[run.attempted - 1 - j] == FinalRecord(files[j], attempts[j])
  {
    RunBatchExtent(files, attempts, history);
    RunBatchOrder(files, attempts, history);
  }

  /**
   * The outcome file by file: the records of the files before the first failure are successes at 100;
   * the failing file's record is on top, an error with its last reported progress; later files have
   * no record.
   */
  lemma BatchRecords(files: seq<File>, attempts: seq<Attempt>, history: seq<UploadedFile>)
    requires |attempts| == |files|
    ensures var run, k := RunBatch(files, attempts, history), FirstFailure(attempts);
            && k <= run.attempted <= |run.history|
            && (forall p :: run.attempted - k <= p < run.attempted ==>
                  run.history[p].status == Success && run.history[p].progress == Percent(100))
            && (k < |files| ==>
                  && run.history[0] == FinalRecord(files[k], attempts[k])
                  && run.history[0].status == Error
                  && run.history[0].progress == AfterEvents(StartRecord(files[k], attempts[k].startedAt), attempts[k].events).progress)
            && |run.history| - |history| == (if k < |files| then k + 1 else |files|)
  {
    RunBatchFailFast(files, attempts, history);
    var run, k := RunBatch(files, attempts, history), FirstFailure(attempts);
    forall p | run.attempted - k <= p < run.attempted
      ensures run.history[p].status == Success && run.history[p].progress == Percent(100)
    {
      var j := run.attempted - 1 - p;
      assert run.history[run.attempted - 1 - j] == FinalRecord(files[j], attempts[j]);
    }
  }

  /** The forms posted for the given files, in order. */
  function Forms(files: seq<File>, bucket: string, path: string): (r: seq<UploadForm>)
    ensures |r| == |files|
    ensures forall i :: 0 <= i < |r| ==> r[i] == UploadForm(files[i], bucket, path)
  {
    if files == [] then [] else Forms(files[..|files| - 1], bucket, path) + [UploadForm(files[|files| - 1], bucket, path)]
  }

  /** The forms for one more file of a prefix. */
  lemma FormsStep(files: seq<File>, i: nat, bucket: string, path: string)
    requires i < |files|
    ensures Forms(files[..i + 1], bucket, path) == Forms(files[..i], bucket, path) + [UploadForm(files[i], bucket, path)]
  {
    assert files[..i + 1][..i] == files[..i];
  }

  /** What uploadFiles reports (the `alert` for an empty selection, the final status otherwise). */
  datatype BatchOutcome = NothingSelected | Completed | Failed

  // ---------------------------------------------------------------------------------------------
  // Selection helpers

  /** Where `Array.prototype.splice(index, 1)` starts on an array of length `len`. */
  function SpliceStart(index: int, len: nat): (start: nat)
    ensures start <= len
  {
    if index < 0 then (if len + index < 0 then 0 else len + index)
    else if index > len then len
    else index
  }

  /** The sequence without the element at `k`; unchanged when `k` is past the end. */
  function RemoveAt<T>(s: seq<T>, k: nat): (r: seq<T>)
    requires k <= |s|
    ensures k < |s| ==> |r| == |s| - 1 && multiset(r) + multiset{s[k]} == multiset(s)
    ensures k == |s| ==> r == s
  {
    if k < |s| then
      assert s == s[..k] + [s[k]] + s[k + 1..];
      s[..k] + s[k + 1..]
    else
      s
  }

  /** removeFile(i) with an index in range removes exactly element i and keeps the rest in order. */
  lemma RemoveInRange<T>(s: seq<T>, i: int)
    requires 0 <= i < |s|
    ensures var r := RemoveAt(s, SpliceStart(i, |s|));
            && |r| == |s| - 1
            && (forall j :: 0 <= j < i ==> r[j] == s[j])
            && (forall j :: i <= j < |r| ==> r[j] == s[j + 1])
  {
  }

  /** A negative index counts from the end, and one below -length removes the first element. */
  lemma RemoveNegative<T>(s: seq<T>, i: int)
    requires i < 0 && s != []
    ensures -|s| <= i ==> RemoveAt(s, SpliceStart(i, |s|)) == s[..|s| + i] + s[|s| + i + 1..]
    ensures i < -|s| ==> RemoveAt(s, SpliceStart(i, |s|)) == s[1..]
  {
  }

  /** An index at or past the end removes nothing. */
  lemma RemovePastEnd<T>(s: seq<T>, i: int)
    requires i >= |s|
    ensures RemoveAt(s, SpliceStart(i, |s|)) == s
  {
  }

  // ---------------------------------------------------------------------------------------------
  // File-size formatting (the unit choice only)

  const SIZE_UNITS: seq<string> := ["Bytes", "KB", "MB", "GB"]

  function Pow1024(i: nat): (p: nat)
    ensures p >= 1
  {
    if i == 0 then 1 else 1024 * Pow1024(i - 1)
  }

  lemma {:induction false} Pow1024Monotone(i: nat, j: nat)
    requires i <= j
    ensures Pow1024(i) <= Pow1024(j)
    decreases j
  {
    if i < j {
      Pow1024Monotone(i, j - 1);
    }
  }

  /** `Math.floor(Math.log(bytes) / Math.log(1024))` for a positive whole number of bytes. */
  function UnitIndex(bytes: nat): (i: nat)
    requires bytes >= 1
    ensures Pow1024(i) <= bytes < Pow1024(i + 1)
  {
    if bytes < 1024 then 0 else 1 + UnitIndex(bytes / 1024)
  }

  /** The unit index is the largest i with 1024^i <= bytes. */
  lemma {:induction false} UnitIndexIsLargest(bytes: nat)
    requires bytes >= 1
    ensures Pow1024(UnitIndex(bytes)) <= bytes < Pow1024(UnitIndex(bytes) + 1)
    ensures forall j: nat :: Pow1024(j) <= bytes ==> j <= UnitIndex(bytes)
  {
    var i := UnitIndex(bytes);
    if bytes >= 1024 {
      UnitIndexIsLargest(bytes / 1024);
    }
    forall j: nat | j > i
      ensures Pow1024(j) > bytes
    {
      Pow1024Monotone(i + 1, j);
    }
  }

  /** `sizes[i]` as string concatenation renders it: past 'GB' the entry is `undefined`. */
  function UnitLabel(i: nat): (name: string)
    ensures name in SIZE_UNITS <==> i < |SIZE_UNITS|
    ensures i < |SIZE_UNITS| ==> name == SIZE_UNITS[i]
  {
    if i < |SIZE_UNITS| then SIZE_UNITS[i] else "undefined"
  }

  /** formatFileSize: "0 Bytes", or a scaled value (floating point, not modelled) with a unit label. */
  datatype SizeText = ZeroBytes | Scaled(unitIndex: nat, unit: string)

  function FormatFileSize(bytes: nat): (text: SizeText)
    ensures text.ZeroBytes? <==> bytes == 0
    ensures text.Scaled? ==> Pow1024(text.unitIndex) <= bytes < Pow1024(text.unitIndex + 1)
    ensures text.Scaled? ==> text.unit == UnitLabel(text.unitIndex)
  {
    if bytes == 0 then ZeroBytes else Scaled(UnitIndex(bytes), UnitLabel(UnitIndex(bytes)))
  }

  /** Sizes below 1 TiB get one of the four units; from 1 TiB on the label is 'undefined' (no clamp). */
  lemma UnitLabels(bytes: nat)
    requires bytes >= 1
    ensures bytes < Pow1024(4) ==> FormatFileSize(bytes).unit in SIZE_UNITS
    ensures bytes >= Pow1024(4) ==> FormatFileSize(bytes).unit == "undefined"
  {
    UnitIndexIsLargest(bytes);
    if UnitIndex(bytes) >= 4 {
      Pow1024Monotone(4, UnitIndex(bytes));
    } else {
      Pow1024Monotone(UnitIndex(bytes) + 1, 4);
    }
  }

  /** 0 bytes is "0 Bytes"; 1536 bytes is scaled into KB and 1048576 bytes into MB. */
  lemma FormatFileSizeExamples()
    ensures FormatFileSize(0) == ZeroBytes
    ensures FormatFileSize(1536) == Scaled(1, "KB")
    ensures FormatFileSize(1048576) == Scaled(2, "MB")
  {
    assert UnitIndex(1536) == 1 + UnitIndex(1);
    assert UnitIndex(1048576) == 1 + UnitIndex(1024);
    assert UnitIndex(1024) == 1 + UnitIndex(1);
  }

  // ---------------------------------------------------------------------------------------------
  // The component

  class FileUpload {
    var config: Config
    const availableBuckets: seq<string>
    const availablePaths: seq<string>
    var selectedFiles: seq<File>
    var uploadHistory: seq<UploadedFile>
    var isUploading: bool

    /** The field initialisers; the bucket and path catalogues come from the external configuration. */
    constructor (buckets: seq<string>, paths: seq<string>)
      ensures config == Config("", "", MAX_FILE_SIZE_MB, READY)
      ensures availableBuckets == buckets && availablePaths == paths
      ensures selectedFiles == [] && uploadHistory == [] && !isUploading
    {
      config := Config("", "", MAX_FILE_SIZE_MB, READY);
      availableBuckets := buckets;
      availablePaths := paths;
      selectedFiles := [];
      uploadHistory := [];
      isUploading := false;
    }

    /** ngOnInit: default to the first bucket and the first path when there are any. */
    method NgOnInit()
      modifies this`config
      ensures config.gcsBucket == if |availableBuckets| > 0 then availableBuckets[0] else old(config).gcsBucket
      ensures config.destinationPath == if |availablePaths| > 0 then availablePaths[0] else old(config).destinationPath
      ensures config.maxFileSize == old(config).maxFileSize && config.status == old(config).status
    {
      if |availableBuckets| > 0 {
        config := config.(gcsBucket := availableBuckets[0]);
      }
      if |availablePaths| > 0 {
        config := config.(destinationPath := availablePaths[0]);
      }
    }

    /** handleFiles: append the files that pass validation, in order; the others raise an alert each. */
    method HandleFiles(files: seq<File>) returns (alerts: seq<Rejection>)
      modifies this`selectedFiles
      ensures selectedFiles == old(selectedFiles) + AcceptedFiles(files)
      ensures alerts == Rejections(files)
    {
      alerts := [];
      for i := 0 to |files|
        invariant selectedFiles == old(selectedFiles) + AcceptedFiles(files[..i])
        invariant alerts == Rejections(files[..i])
      {
        assert files[..i + 1][..i] == files[..i];
        var verdict := ValidateFile(files[i]);
        if verdict == Accepted {
          selectedFiles := selectedFiles + [files[i]];
        } else {
          alerts := alerts + [Rejection(files[i], verdict)];
        }
      }
      assert files[..|files|] == files;
    }

    /**
     * uploadSingleFile: prepend a fresh record, let each event's handler update that same record,
     * then mark it a success at 100 or an error. Returns the posted form and whether it resolved.
     */
    method UploadSingleFile(f: File, a: Attempt) returns (form: UploadForm, ok: bool)
      modifies this`uploadHistory
      ensures uploadHistory == [FinalRecord(f, a)] + old(uploadHistory)
      ensures form == UploadForm(f, config.gcsBucket, config.destinationPath)
      ensures ok == a.completed
    {
      var rec := StartRecord(f, a.startedAt);
      uploadHistory := [rec] + uploadHistory;
      form := UploadForm(f, config.gcsBucket, config.destinationPath);
      var i := 0;
      while i < |a.events|
        invariant 0 <= i <= |a.events|
        invariant rec == AfterEvents(StartRecord(f, a.startedAt), a.events[..i])
        invariant uploadHistory == [rec] + old(uploadHistory)
      {
        assert a.events[..i + 1][..i] == a.events[..i];
        rec := OnEvent(rec, a.events[i]);
        uploadHistory := uploadHistory[0 := rec];
        i := i + 1;
      }
      assert a.events[..i] == a.events;
      if a.completed {
        rec := rec.(status := Success, progress := Percent(100));
      } else {
        rec := rec.(status := Error);
      }
      uploadHistory := uploadHistory[0 := rec];
      ok := a.completed;
    }

    /**
     * The `for ... of` loop of uploadFiles: upload the files in order, each with its attempt, and stop
     * at the first one that fails. Returns the forms posted and whether every upload completed.
     */
    method UploadEach(files: seq<File>, attempts: seq<Attempt>) returns (sent: seq<UploadForm>, completed: bool)
      requires |attempts| == |files|
      modifies this`uploadHistory
      ensures var run := RunBatch(files, attempts, old(uploadHistory));
              && uploadHistory == run.history
              && completed == run.completed
              && sent == Forms(files[..run.attempted], config.gcsBucket, config.destinationPath)
    {
      ghost var run := RunBatch(files, attempts, uploadHistory);
      var i := 0;
      var failed := false;
      sent := [];
      while i < |files| && !failed
        invariant 0 <= i <= |files|
        invariant sent == Forms(files[..i], config.gcsBucket, config.destinationPath)
        invariant !failed ==>
                  var rest := RunBatch(files[i..], attempts[i..], uploadHistory);
                  run.history == rest.history && run.completed == rest.completed && run.attempted == i + rest.attempted
        invariant failed ==> i > 0 && !run.completed && run.history == uploadHistory && run.attempted == i
      {
        RunBatchSuffixStep(files, attempts, i, uploadHistory);
        FormsStep(files, i, config.gcsBucket, config.destinationPath);
        var form, ok := UploadSingleFile(files[i], attempts[i]);
        sent := sent + [form];
        i := i + 1;
        failed := !ok;
      }
      assert files[..i] == files[..run.attempted];
      completed := !failed;
    }

    /**
     * uploadFiles: with an empty selection nothing changes; otherwise the selection is uploaded in
     * order, stopping at the first failure, and the status, selection and flag are set accordingly.
     * `attempts[i]` is what the transport does with the i-th selected file.
     */
    method UploadFiles(attempts: seq<Attempt>) returns (outcome: BatchOutcome, sent: seq<UploadForm>)
      requires |attempts| == |selectedFiles|
      modifies this`config, this`isUploading, this`selectedFiles, this`uploadHistory
      ensures old(selectedFiles) == [] ==>
              && outcome == NothingSelected && sent == []
              && config == old(config) && isUploading == old(isUploading)
              && selectedFiles == old(selectedFiles) && uploadHistory == old(uploadHistory)
      ensures old(selectedFiles) != [] ==>
              var run := RunBatch(old(selectedFiles), attempts, old(uploadHistory));
              && uploadHistory == run.history
              && sent == Forms(old(selectedFiles)[..run.attempted], old(config).gcsBucket, old(config).destinationPath)
              && outcome == (if run.completed then Completed else Failed)
              && config == old(config).(status := if run.completed then COMPLETED else FAILED)
              && selectedFiles == (if run.completed then [] else old(selectedFiles))
              && !isUploading
    {
      var files := selectedFiles;
      if files == [] {
        outcome, sent := NothingSelected, [];
        return;
      }
      isUploading := true;
      config := config.(status := UPLOADING);
      var completed;
      sent, completed := UploadEach(files, attempts);
      if completed {
        config := config.(status := COMPLETED);
        selectedFiles := [];
        outcome := Completed;
      } else {
        config := config.(status := FAILED);
        outcome := Failed;
      }
      isUploading := false;
    }

    /** removeFile: `splice(index, 1)` on the selection. */
    method RemoveFile(index: int)
      modifies this`selectedFiles
      ensures selectedFiles == RemoveAt(old(selectedFiles), SpliceStart(index, |old(selectedFiles)|))
    {
      var start := SpliceStart(index, |selectedFiles|);
      if start < |selectedFiles| {
        selectedFiles := selectedFiles[..start] + selectedFiles[start + 1..];
      }
    }

    /** clearFiles: empty the selection. */
    method ClearFiles()
      modifies this`selectedFiles
      ensures selectedFiles == []
    {
      selectedFiles := [];
    }
  }
}
