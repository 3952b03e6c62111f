/** The compress job (CompressThread): optionally scale each image down,
    re-encode it as "{stem}_compressed_{timestamp}{ext}" and report how much
    smaller the file became. Files are opened one at a time, so a file that
    cannot be opened, or that Pillow refuses to scale, ends the run after
    the earlier outputs were written. */
module Compress {
  import opened Wrappers
  import opened Paths
  import opened Formats
  import opened Overwrite
  import opened Images
  import opened Text

  datatype CompressJob = CompressJob(files: seq<string>, outputDir: string, scale: nat, quality: nat, outputFormat: Option<string>)

  /** One entry of the finished list: input, output, byte sizes before and
      after, the reduction in percent; `dimensions` is the size of the
      image written (the source's list does not report it). */
  datatype CompressRecord = CompressRecord(input: string, output: string, originalSize: nat, newSize: nat, ratio: real, dimensions: Size)

  /** The written size: scaled by scale/100 and truncated when scale < 100, unchanged otherwise. */
  function CompressedSize(width: nat, height: nat, scale: nat): (r: Size)
    ensures 0 <= r.width <= width && 0 <= r.height <= height
    ensures scale >= 100 ==> r == Size(width, height)
    ensures scale < 100 ==> r.width * 100 <= width * scale < (r.width + 1) * 100
    ensures scale < 100 ==> r.height * 100 <= height * scale < (r.height + 1) * 100
  {
    if scale < 100 then Size(width * scale / 100, height * scale / 100) else Size(width, height)
  }

  /** At 50% each side is halved, rounding down. */
  lemma HalfScaleHalves(width: nat, height: nat)
    ensures CompressedSize(width, height, 50) == Size(width / 2, height / 2)
  {
  }

  /** The size reduction in percent, 1 - new/original scaled to 100; 0 for an
      empty original, so there is never a division by zero. */
  function Ratio(originalSize: nat, newSize: nat): (r: real)
    ensures originalSize == 0 ==> r == 0.0
    ensures originalSize > 0 ==> r <= 100.0
    ensures originalSize > 0 ==> (r >= 0.0 <==> newSize <= originalSize)
    ensures originalSize > 0 ==> (r == 100.0 <==> newSize == 0)
  {
    if originalSize > 0 then
      var q := newSize as real / originalSize as real;
      assert q * originalSize as real == newSize as real;
      (1.0 - q) * 100.0
    else 0.0
  }

  /** The original format as the job sees it: a scaled-down image is a new
      image with no detected format, so its format comes from the file's extension. */
  function CompressSourceFormat(img: Image, file: string, scale: nat): (r: string)
    ensures scale >= 100 ==> r == OriginalFormat(img, file)
    // Below 100% only the file name counts, whatever the decoder detected.
    ensures scale < 100 ==> r == OriginalFormat(Image(0, 0, None, "", false), file)
  {
    OriginalFormat(if scale < 100 then img.(format := None) else img, file)
  }

  function CompressPath(job: CompressJob, file: string, img: Image, timestamp: string): string {
    var format := OutputFormat(Some(CompressSourceFormat(img, file, job.scale)), job.outputFormat);
    Join(job.outputDir, Stem(file) + "_compressed_" + timestamp + FileExtension(format))
  }

  function CompressRecordFor(job: CompressJob, file: string, path: string, img: Image, sizeOf: string -> nat): CompressRecord {
    CompressRecord(file, path, sizeOf(file), sizeOf(path), Ratio(sizeOf(file), sizeOf(path)),
                   CompressedSize(img.width, img.height, job.scale))
  }

  /** Opening `file` and, below 100%, scaling it down: the opened image, or
      why the file fails (it cannot be opened, or a side would shrink to
      nothing). */
  function Prepare(scale: nat, load: string -> Option<Image>, file: string): (r: Result<Image, Failure>)
    ensures load(file).None? ==> r == Err(Unreadable(file))
    ensures r.Ok? ==> load(file) == Some(r.value)
    ensures load(file).Some? && r.Err? ==> r == Err(ZeroSide) && scale < 100
    ensures load(file).Some? && scale >= 100 ==> r.Ok?
  {
    match load(file)
    case None => Err(Unreadable(file))
    case Some(img) =>
      if scale < 100 && ResizeRefused(ImageSize(img), CompressedSize(img.width, img.height, scale)) then Err(ZeroSide)
      else Ok(img)
  }

  /** A file that gets through is written at a size of at least one pixel
      a side, or at its own size. */
  lemma PreparedHasPixels(scale: nat, load: string -> Option<Image>, file: string)
    requires Prepare(scale, load, file).Ok?
    ensures var img := Prepare(scale, load, file).value;
            var s := CompressedSize(img.width, img.height, scale);
            s == ImageSize(img) || (s.width >= 1 && s.height >= 1)
  {
  }

  /** The index of the first file that fails, or the number of files. */
  function FirstFailing(scale: nat, files: seq<string>, load: string -> Option<Image>): (k: nat)
    ensures k <= |files|
    ensures forall j :: 0 <= j < k ==> Prepare(scale, load, files[j]).Ok?
    ensures k < |files| ==> Prepare(scale, load, files[k]).Err?
  {
    if files == [] || Prepare(scale, load, files[0]).Err? then 0
    else
      var k := 1 + FirstFailing(scale, files[1..], load);
      assert forall j :: 1 <= j < k ==> files[j] == files[1..][j - 1];
      k
  }

  /** The candidate outputs of the files handled before the run ends. */
  function CompressBatch(job: CompressJob, load: string -> Option<Image>, clock: seq<string>, answers: seq<bool>,
                         existing: set<string>): (b: Batch)
    requires |clock| == |job.files| && |answers| == |job.files|
    ensures b.Valid() && |b.paths| == FirstFailing(job.scale, job.files, load)
  {
    var k := FirstFailing(job.scale, job.files, load);
    Batch(seq(k, i requires 0 <= i < k => CompressPath(job, job.files[i], load(job.files[i]).value, clock[i])),
          answers[..k], existing)
  }

  function CompressRecords(job: CompressJob, load: string -> Option<Image>, clock: seq<string>, sizeOf: string -> nat)
    : (rs: seq<CompressRecord>)
    requires |clock| == |job.files|
    ensures |rs| == FirstFailing(job.scale, job.files, load)
  {
    var k := FirstFailing(job.scale, job.files, load);
    seq(k, i requires 0 <= i < k =>
      var img := load(job.files[i]).value;
      CompressRecordFor(job, job.files[i], CompressPath(job, job.files[i], img, clock[i]), img, sizeOf))
  }

  /** The error of the first file that fails, if any, otherwise the records of the written files in input order. */
  function CompressOutcome(job: CompressJob, load: string -> Option<Image>, existing: set<string>, clock: seq<string>,
                           answers: seq<bool>, sizeOf: string -> nat): Result<seq<CompressRecord>, Failure>
    requires |clock| == |job.files| && |answers| == |job.files|
  {
    var k := FirstFailing(job.scale, job.files, load);
    if k < |job.files| then Err(Prepare(job.scale, load, job.files[k]).error)
    else Ok(CompressBatch(job, load, clock, answers, existing).Kept(CompressRecords(job, load, clock, sizeOf), k))
  }

  /** CompressThread.run: handle the files in order until one cannot be
      opened or scaled; whatever was written before stays written. */
  method RunCompress(job: CompressJob, load: string -> Option<Image>, existing: set<string>, clock: seq<string>,
                     answers: seq<bool>, sizeOf: string -> nat)
    returns (outcome: Result<seq<CompressRecord>, Failure>, after: set<string>)
    requires |clock| == |job.files| && |answers| == |job.files|
    ensures outcome == CompressOutcome(job, load, existing, clock, answers, sizeOf)
    ensures after == CompressBatch(job, load, clock, answers, existing).ExistingAfter(FirstFailing(job.scale, job.files, load))
  {
    CompressCandidates(job, load, existing, clock, answers, sizeOf);
    outcome, after := CompressEach(job, load, existing, clock, answers, sizeOf,
                                   FirstFailing(job.scale, job.files, load),
                                   CompressBatch(job, load, clock, answers, existing),
                                   CompressRecords(job, load, clock, sizeOf));
  }

  /** Candidate i of the batch: file i opens and scales, and its output path, overwrite
      answer and record are the ones the loop computes for it. */
  predicate Candidate(job: CompressJob, load: string -> Option<Image>, clock: seq<string>, answers: seq<bool>,
                      sizeOf: string -> nat, b: Batch, records: seq<CompressRecord>, i: nat)
    requires i < |b.paths| == |b.answers| == |records| && i < |job.files| == |clock| == |answers|
  {
    Prepare(job.scale, load, job.files[i]).Ok? && load(job.files[i]).Some? && b.answers[i] == answers[i] &&
    b.paths[i] == CompressPath(job, job.files[i], load(job.files[i]).value, clock[i]) &&
    records[i] == CompressRecordFor(job, job.files[i], b.paths[i], load(job.files[i]).value, sizeOf)
  }

  /** The batch and records of a run describe the files before the first failing one. */
  lemma CompressCandidates(job: CompressJob, load: string -> Option<Image>, existing: set<string>, clock: seq<string>,
                           answers: seq<bool>, sizeOf: string -> nat)
    requires |clock| == |job.files| && |answers| == |job.files|
    ensures var b := CompressBatch(job, load, clock, answers, existing);
            var records := CompressRecords(job, load, clock, sizeOf);
            forall i :: 0 <= i < FirstFailing(job.scale, job.files, load) ==> Candidate(job, load, clock, answers, sizeOf, b, records, i)
  {
    var k := FirstFailing(job.scale, job.files, load);
    var b := CompressBatch(job, load, clock, answers, existing);
    var records := CompressRecords(job, load, clock, sizeOf);
    forall i | 0 <= i < k
      ensures Candidate(job, load, clock, answers, sizeOf, b, records, i)
    {
      assert Prepare(job.scale, load, job.files[i]).Ok?;
      assert b.answers[i] == answers[i];
    }
  }

  /** The loop of CompressThread.run (src/core/image_processor.py:236-285); `k` is the first
      failing file, `b` and `records` the candidate outputs before it. */
  method CompressEach(job: CompressJob, load: string -> Option<Image>, existing: set<string>, clock: seq<string>,
                      answers: seq<bool>, sizeOf: string -> nat,
                      ghost k: nat, ghost b: Batch, ghost records: seq<CompressRecord>)
    returns (outcome: Result<seq<CompressRecord>, Failure>, files: set<string>)
    requires |clock| == |job.files| && |answers| == |job.files|
    requires k <= |job.files|
    requires k < |job.files| ==> Prepare(job.scale, load, job.files[k]).Err?
    requires b.Valid() && |b.paths| == k && b.existing == existing && |records| == k
    requires forall i :: 0 <= i < k ==> Candidate(job, load, clock, answers, sizeOf, b, records, i)
    ensures k < |job.files| ==> outcome == Err(Prepare(job.scale, load, job.files[k]).error)
    ensures k == |job.files| ==> outcome == Ok(b.Kept(records, k))
    ensures files == b.ExistingAfter(k)
  {
    var results: seq<CompressRecord> := [];
    files := existing;
    var i := 0;
    while i < |job.files|
      invariant 0 <= i <= k
      invariant results == b.Kept(records, i)
      invariant files == b.ExistingAfter(i)
    {
      var stop;
      stop, files, results := CompressStep(job, load, clock, answers, sizeOf, k, b, records, i, files, results);
      if stop.Some? {
        outcome := Err(stop.value);
        return;
      }
      i := i + 1;
    }
    outcome := Ok(results);
  }

  /** One pass of that loop: file i either fails, which can only be file k,
      or is handled and the loop goes on. */
  method CompressStep(job: CompressJob, load: string -> Option<Image>, clock: seq<string>, answers: seq<bool>,
                      sizeOf: string -> nat, ghost k: nat, ghost b: Batch, ghost records: seq<CompressRecord>, i: nat,
                      files: set<string>, results: seq<CompressRecord>)
    returns (stop: Option<Failure>, files': set<string>, results': seq<CompressRecord>)
    requires |clock| == |job.files| && |answers| == |job.files|
    requires i <= k <= |job.files| && i < |job.files|
    requires k < |job.files| ==> Prepare(job.scale, load, job.files[k]).Err?
    requires b.Valid() && |b.paths| == k && |records| == k
    requires i < k ==> Candidate(job, load, clock, answers, sizeOf, b, records, i)
    requires i < k ==> files == b.ExistingAfter(i) && results == b.Kept(records, i)
    ensures stop.Some? ==> i == k && stop.value == Prepare(job.scale, load, job.files[k]).error && files' == files
    ensures stop.None? ==> i < k && files' == b.ExistingAfter(i + 1) && results' == b.Kept(records, i + 1)
  {
    var prepared := OpenAndScale(job.scale, load, job.files[i]);
    if prepared.Err? {
      return Some(prepared.error), files, results;
    }
    stop := None;
    files', results' := CompressOne(job, prepared.value, clock, answers, sizeOf, b, records, i, files, results);
  }

  /** The start of one pass of that loop: open the file and, below 100%,
      scale the image down. */
  method OpenAndScale(scale: nat, load: string -> Option<Image>, file: string) returns (r: Result<Image, Failure>)
    ensures r == Prepare(scale, load, file)
  {
    var loaded := load(file);
    if loaded.None? {
      return Err(Unreadable(file));
    }
    var img := loaded.value;
    if scale < 100 && ResizeRefused(ImageSize(img), CompressedSize(img.width, img.height, scale)) {
      return Err(ZeroSide);
    }
    return Ok(img);
  }

  /** One pass of that loop for a file that opened as `img`: it is
      compressed and written unless declined. */
  method CompressOne(job: CompressJob, img: Image, clock: seq<string>, answers: seq<bool>, sizeOf: string -> nat,
                     ghost b: Batch, ghost records: seq<CompressRecord>, i: nat,
                     files: set<string>, results: seq<CompressRecord>)
    returns (files': set<string>, results': seq<CompressRecord>)
    requires |clock| == |job.files| && |answers| == |job.files| && i < |job.files|
    requires b.Valid() && i < |b.paths| == |records| && b.answers[i] == answers[i]
    requires b.paths[i] == CompressPath(job, job.files[i], img, clock[i])
    requires records[i] == CompressRecordFor(job, job.files[i], b.paths[i], img, sizeOf)
    requires files == b.ExistingAfter(i) && results == b.Kept(records, i)
    ensures files' == b.ExistingAfter(i + 1) && results' == b.Kept(records, i + 1)
  {
    var path := CompressPath(job, job.files[i], img, clock[i]);
    var record := CompressRecordFor(job, job.files[i], path, img, sizeOf);
    var written;
    written, files', results' := WriteUnlessDeclined(b, records, i, path, answers[i], record, files, results);
  }

  /** A scaled-down "*.jpg" input is written as ".jpg" whatever format its
      content was detected as, when no format is requested. */
  lemma ScaledJpgPath(job: CompressJob, file: string, img: Image, timestamp: string)
    requires job.scale < 100 && job.outputFormat == None && Extension(file) == ".jpg"
    ensures CompressPath(job, file, img, timestamp) == Join(job.outputDir, Stem(file) + "_compressed_" + timestamp + ".jpg")
  {
    assert Upper(".jpg"[1..]) == "JPG";
    assert CompressSourceFormat(img, file, job.scale) == "JPG";
  }

  /** At 50%, with nothing requested and every input named "*.jpg", every
      record is of an input whose image was halved, written as a ".jpg"
      under "{stem}_compressed_{timestamp}". */
  lemma HalfScaleScenario(job: CompressJob, load: string -> Option<Image>, existing: set<string>, clock: seq<string>,
                          answers: seq<bool>, sizeOf: string -> nat)
    requires |clock| == |job.files| && |answers| == |job.files|
    requires job.scale == 50 && job.outputFormat == None
    requires forall i :: 0 <= i < |job.files| ==> Extension(job.files[i]) == ".jpg"
    requires CompressOutcome(job, load, existing, clock, answers, sizeOf).Ok?
    ensures forall r :: r in CompressOutcome(job, load, existing, clock, answers, sizeOf).value ==>
              exists i :: 0 <= i < |job.files| && r.input == job.files[i] && load(job.files[i]).Some? &&
                r.dimensions == Size(load(job.files[i]).value.width / 2, load(job.files[i]).value.height / 2) &&
                r.output == Join(job.outputDir, Stem(job.files[i]) + "_compressed_" + clock[i] + ".jpg")
  {
    var k := FirstFailing(job.scale, job.files, load);
    var b := CompressBatch(job, load, clock, answers, existing);
    var records := CompressRecords(job, load, clock, sizeOf);
    forall r | r in b.Kept(records, k)
      ensures exists i :: 0 <= i < |job.files| && r.input == job.files[i] && load(job.files[i]).Some? &&
                r.dimensions == Size(load(job.files[i]).value.width / 2, load(job.files[i]).value.height / 2) &&
                r.output == Join(job.outputDir, Stem(job.files[i]) + "_compressed_" + clock[i] + ".jpg")
    {
      KeptMembers(b, records, k, r);
      var i :| 0 <= i < k && b.Written(i) && records[i] == r;
      var img := load(job.files[i]).value;
      ScaledJpgPath(job, job.files[i], img, clock[i]);
      HalfScaleHalves(img.width, img.height);
      assert r.input == job.files[i];
    }
  }

  /** At 1% a 99-pixel side scales to nothing: Pillow refuses, the run ends
      with that error, and the output of the file before it stays written. */
  lemma TinyScaleStopsRun(job: CompressJob, load: string -> Option<Image>, existing: set<string>, clock: seq<string>,
                          answers: seq<bool>, sizeOf: string -> nat)
    requires |job.files| == 2 && |clock| == 2 && |answers| == 2 && job.scale == 1
    requires load(job.files[0]).Some? && load(job.files[0]).value.width == 200 && load(job.files[0]).value.height == 300
    requires load(job.files[1]).Some? && load(job.files[1]).value.width == 99 && load(job.files[1]).value.height == 400
    ensures CompressOutcome(job, load, existing, clock, answers, sizeOf) == Err(ZeroSide)
    ensures var b := CompressBatch(job, load, clock, answers, existing);
            |b.paths| == 1 && b.paths[0] in b.ExistingAfter(1)
  {
    assert Prepare(job.scale, load, job.files[0]).Ok?;
    assert Prepare(job.scale, load, job.files[1]) == Err(ZeroSide);
    assert FirstFailing(job.scale, job.files, load) == 1;
  }
}
