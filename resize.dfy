/** The resize job (ResizeThread): bring every image to one shared size and
    write it as "{stem}_resized_{timestamp}{ext}" in the output directory. */
module Resize {
  import opened Wrappers
  import opened Paths
  import opened Formats
  import opened Overwrite
  import opened Images

  /** The job's parameters; customWidth/customHeight are what
      set_custom_size stored (None until it is called). */
  datatype ResizeJob = ResizeJob(
    files: seq<string>,
    outputDir: string,
    mode: string,
    quality: nat,
    outputFormat: Option<string>,
    customWidth: Option<int>,
    customHeight: Option<int>)

  /** One entry of the finished list: input, output, both sizes as
      "{w}x{h}" and the written file's byte size. */
  datatype ResizeRecord = ResizeRecord(input: string, output: string, originalSize: string, newSize: string, fileSize: nat)

  /** `value or fallback` for an optional integer: None and 0 both fall back. */
  function OrDefault(v: Option<int>, fallback: int): int {
    if v.Some? && v.value != 0 then v.value else fallback
  }

  /** The shared target size: largest or smallest width and height in
      "max"/"min" mode (which fail on no images), otherwise the custom size
      with 800x600 standing in for a missing or zero side. */
  function ResizeTarget(mode: string, images: seq<Image>, customWidth: Option<int>, customHeight: Option<int>): (r: Result<Size, Failure>)
    ensures (mode == "max" || mode == "min") ==> (r.Ok? <==> images != [])
    ensures (mode == "max" || mode == "min") && images == [] ==> r == Err(EmptySequence)
    ensures mode == "max" && r.Ok? ==> IsMax(Widths(images), r.value.width) && IsMax(Heights(images), r.value.height)
    ensures mode == "min" && r.Ok? ==> IsMin(Widths(images), r.value.width) && IsMin(Heights(images), r.value.height)
    ensures mode != "max" && mode != "min" ==> r == Ok(Size(OrDefault(customWidth, 800), OrDefault(customHeight, 600)))
  {
    if mode == "max" then
      if images == [] then Err(EmptySequence) else Ok(Size(Max(Widths(images)), Max(Heights(images))))
    else if mode == "min" then
      if images == [] then Err(EmptySequence) else Ok(Size(Min(Widths(images)), Min(Heights(images))))
    else Ok(Size(OrDefault(customWidth, 800), OrDefault(customHeight, 600)))
  }

  /** Where the resized copy of `file` goes. */
  function ResizePath(job: ResizeJob, file: string, img: Image, timestamp: string): string {
    var format := OutputFormat(Some(OriginalFormat(img, file)), job.outputFormat);
    Join(job.outputDir, Stem(file) + "_resized_" + timestamp + FileExtension(format))
  }

  /** The candidate outputs of a run, as the overwrite rule sees them. */
  function ResizeBatch(job: ResizeJob, images: seq<Image>, clock: seq<string>, answers: seq<bool>, existing: set<string>): (b: Batch)
    requires |images| == |job.files| && |clock| == |job.files| && |answers| == |job.files|
    ensures b.Valid() && |b.paths| == |job.files|
  {
    Batch(seq(|job.files|, i requires 0 <= i < |job.files| => ResizePath(job, job.files[i], images[i], clock[i])), answers, existing)
  }

  /** The record each input would produce if written. */
  function ResizeRecords(job: ResizeJob, images: seq<Image>, target: Size, clock: seq<string>, sizeOf: string -> nat): (rs: seq<ResizeRecord>)
    requires |images| == |job.files| && |clock| == |job.files|
    ensures |rs| == |job.files|
  {
    seq(|job.files|, i requires 0 <= i < |job.files| =>
      ResizeRecordFor(job.files[i], ResizePath(job, job.files[i], images[i], clock[i]), images[i], target, sizeOf))
  }

  function ResizeRecordFor(file: string, path: string, img: Image, target: Size, sizeOf: string -> nat): ResizeRecord {
    ResizeRecord(file, path, SizeText(img.width, img.height), SizeText(target.width, target.height), sizeOf(path))
  }

  /** Index of the first image Pillow refuses to bring to `target`, or |images| when there is none. */
  function FirstRefused(images: seq<Image>, target: Size): (k: nat)
    ensures k <= |images|
    ensures forall j :: 0 <= j < k ==> !ResizeRefused(ImageSize(images[j]), target)
    ensures k < |images| ==> ResizeRefused(ImageSize(images[k]), target)
  {
    if images == [] then 0
    else if ResizeRefused(ImageSize(images[0]), target) then 0
    else
      var k := FirstRefused(images[1..], target);
      assert forall j :: 1 <= j < 1 + k ==> images[j] == images[1..][j - 1];
      1 + k
  }

  /** What a run ends with: the error, or the records of the written files in input order. */
  function ResizeOutcome(job: ResizeJob, load: string -> Option<Image>, existing: set<string>, clock: seq<string>,
                         answers: seq<bool>, sizeOf: string -> nat): Result<seq<ResizeRecord>, Failure>
    requires |clock| == |job.files| && |answers| == |job.files|
  {
    var loaded := LoadAll(job.files, load);
    if loaded.Err? then Err(loaded.error)
    else
      var target := ResizeTarget(job.mode, loaded.value, job.customWidth, job.customHeight);
      if target.Err? then Err(target.error)
      else if FirstRefused(loaded.value, target.value) < |job.files| then Err(ZeroSide)
      else
        var b := ResizeBatch(job, loaded.value, clock, answers, existing);
        Ok(b.Kept(ResizeRecords(job, loaded.value, target.value, clock, sizeOf), |job.files|))
  }

  /** The files present once a run is over: unchanged when reading the
      inputs or fixing the target fails, otherwise the starting files plus
      every output written before the first refused resize (all of them
      when none is refused). */
  function ResizeFilesAfter(job: ResizeJob, load: string -> Option<Image>, existing: set<string>, clock: seq<string>,
                            answers: seq<bool>): set<string>
    requires |clock| == |job.files| && |answers| == |job.files|
  {
    var loaded := LoadAll(job.files, load);
    if loaded.Err? then existing
    else
      var target := ResizeTarget(job.mode, loaded.value, job.customWidth, job.customHeight);
      if target.Err? then existing
      else ResizeBatch(job, loaded.value, clock, answers, existing).ExistingAfter(FirstRefused(loaded.value, target.value))
  }

  /** ResizeThread.run: read every image's size, fix the target, then resize
      and write each image, skipping those whose existing output the
      operator declines to overwrite. */
  method RunResize(job: ResizeJob, load: string -> Option<Image>, existing: set<string>, clock: seq<string>,
                   answers: seq<bool>, sizeOf: string -> nat)
    returns (outcome: Result<seq<ResizeRecord>, Failure>, after: set<string>)
    requires |clock| == |job.files| && |answers| == |job.files|
    ensures outcome == ResizeOutcome(job, load, existing, clock, answers, sizeOf)
    ensures after == ResizeFilesAfter(job, load, existing, clock, answers)
  {
    var n := |job.files|;
    var images: seq<Image> := [];
    var i := 0;
    while i < n
      invariant 0 <= i <= n && |images| == i
      invariant forall k :: 0 <= k < i ==> load(job.files[k]) == Some(images[k])
    {
      var loaded := load(job.files[i]);
      if loaded.None? {
        LoadAllFirstFailure(job.files, load, i);
        outcome, after := Err(Unreadable(job.files[i])), existing;
        return;
      }
      images := images + [loaded.value];
      i := i + 1;
    }
    ghost var all := LoadAll(job.files, load);
    assert all.Ok? && |all.value| == n;
    assert forall k :: 0 <= k < n ==> all.value[k] == images[k];
    assert all.value == images;
    var target := ResizeTarget(job.mode, images, job.customWidth, job.customHeight);
    if target.Err? {
      outcome, after := Err(target.error), existing;
      return;
    }
    outcome, after := WriteResized(job, images, target.value, clock, answers, existing, sizeOf,
                                   ResizeBatch(job, images, clock, answers, existing),
                                   ResizeRecords(job, images, target.value, clock, sizeOf));
  }

  /** Candidate i of the batch: its output path and record are the ones the loop computes for image i. */
  predicate Candidate(job: ResizeJob, images: seq<Image>, target: Size, clock: seq<string>, sizeOf: string -> nat,
                      b: Batch, records: seq<ResizeRecord>, i: nat)
    requires i < |b.paths| == |records| && i < |job.files| == |images| == |clock|
  {
    b.paths[i] == ResizePath(job, job.files[i], images[i], clock[i]) &&
    records[i] == ResizeRecordFor(job.files[i], b.paths[i], images[i], target, sizeOf)
  }

  /** The per-file loop of ResizeThread.run (src/core/image_processor.py:140-186): each image is
      resized to the target and written unless the operator declines to
      overwrite its existing output; a refused resize ends the run with an
      error, keeping what was already written. The first refused image is
      located before the loop, which then writes the images ahead of it: the
      same writes, in the same order, as stopping at the refusal. `b` and
      `records` are the run's candidate outputs and the record each would produce. */
  method WriteResized(job: ResizeJob, images: seq<Image>, target: Size, clock: seq<string>, answers: seq<bool>,
                      existing: set<string>, sizeOf: string -> nat, ghost b: Batch, ghost records: seq<ResizeRecord>)
    returns (outcome: Result<seq<ResizeRecord>, Failure>, files: set<string>)
    requires |images| == |job.files| && |clock| == |job.files| && |answers| == |job.files|
    requires b.Valid() && b.answers == answers && b.existing == existing
    requires |b.paths| == |job.files| && |records| == |job.files|
    requires forall i {:trigger Candidate(job, images, target, clock, sizeOf, b, records, i)} ::
               0 <= i < |job.files| ==> Candidate(job, images, target, clock, sizeOf, b, records, i)
    ensures files == b.ExistingAfter(FirstRefused(images, target))
    ensures FirstRefused(images, target) < |job.files| ==> outcome == Err(ZeroSide)
    ensures FirstRefused(images, target) == |job.files| ==> outcome == Ok(b.Kept(records, |job.files|))
  {
    var k := FirstRefused(images, target);
    var results := [];
    files := existing;
    for i := 0 to k
      invariant results == b.Kept(records, i) && files == b.ExistingAfter(i)
    {
      files, results := ResizeOne(job, images, target, clock, answers, sizeOf, b, records, i, files, results);
    }
    outcome := if k < |job.files| then Err(ZeroSide) else Ok(results);
  }

  /** One pass of that loop: image i is resized and written unless declined. */
  method ResizeOne(job: ResizeJob, images: seq<Image>, target: Size, clock: seq<string>, answers: seq<bool>,
                  sizeOf: string -> nat, ghost b: Batch, ghost records: seq<ResizeRecord>, i: nat,
                  files: set<string>, results: seq<ResizeRecord>)
    returns (files': set<string>, results': seq<ResizeRecord>)
    requires |images| == |job.files| && |clock| == |job.files| && |answers| == |job.files| && i < |job.files|
    requires b.Valid() && b.answers == answers
    requires |b.paths| == |job.files| && |records| == |job.files|
    requires Candidate(job, images, target, clock, sizeOf, b, records, i)
    requires files == b.ExistingAfter(i) && results == b.Kept(records, i)
    ensures files' == b.ExistingAfter(i + 1) && results' == b.Kept(records, i + 1)
  {
    var path := ResizePath(job, job.files[i], images[i], clock[i]);
    var record := ResizeRecordFor(job.files[i], path, images[i], target, sizeOf);
    var written;
    written, files', results' := WriteUnlessDeclined(b, records, i, path, answers[i], record, files, results);
  }

  /** Every record of a finished run carries the one shared target size,
      and belongs to some input, written under that input's resized name. */
  lemma ResizeRecordsShareTarget(job: ResizeJob, load: string -> Option<Image>, existing: set<string>, clock: seq<string>,
                                 answers: seq<bool>, sizeOf: string -> nat)
    requires |clock| == |job.files| && |answers| == |job.files|
    requires ResizeOutcome(job, load, existing, clock, answers, sizeOf).Ok?
    ensures var images := LoadAll(job.files, load).value;
            var t := ResizeTarget(job.mode, images, job.customWidth, job.customHeight).value;
            forall r :: r in ResizeOutcome(job, load, existing, clock, answers, sizeOf).value ==>
              r.newSize == SizeText(t.width, t.height) &&
              exists i :: 0 <= i < |job.files| && r.input == job.files[i] &&
                          r.output == ResizePath(job, job.files[i], images[i], clock[i]) &&
                          r.originalSize == SizeText(images[i].width, images[i].height)
  {
    var images := LoadAll(job.files, load).value;
    var t := ResizeTarget(job.mode, images, job.customWidth, job.customHeight).value;
    var b := ResizeBatch(job, images, clock, answers, existing);
    var records := ResizeRecords(job, images, t, clock, sizeOf);
    forall r | r in b.Kept(records, |job.files|)
      ensures r.newSize == SizeText(t.width, t.height)
      ensures exists i :: 0 <= i < |job.files| && r.input == job.files[i] &&
                          r.output == ResizePath(job, job.files[i], images[i], clock[i]) &&
                          r.originalSize == SizeText(images[i].width, images[i].height)
    {
      KeptMembers(b, records, |job.files|, r);
    }
  }

  /** With no images, "max" and "min" fail while a custom size finishes with nothing. */
  lemma ResizeNoImages(job: ResizeJob, load: string -> Option<Image>, existing: set<string>, sizeOf: string -> nat)
    requires job.files == []
    ensures ResizeOutcome(job, load, existing, [], [], sizeOf) ==
            if job.mode == "max" || job.mode == "min" then Err(EmptySequence) else Ok([])
  {
  }

  /** Pillow refuses nothing when the images and the target have sides of
      at least one pixel: "max" and "min" pick sides among the images', and
      a positive custom size (or the 800x600 fallback) is used as it is. */
  lemma PositiveSidesNeverRefused(job: ResizeJob, images: seq<Image>)
    requires forall k :: 0 <= k < |images| ==> images[k].width >= 1 && images[k].height >= 1
    requires job.mode != "max" && job.mode != "min" ==> OrDefault(job.customWidth, 800) >= 1 && OrDefault(job.customHeight, 600) >= 1
    requires ResizeTarget(job.mode, images, job.customWidth, job.customHeight).Ok?
    ensures FirstRefused(images, ResizeTarget(job.mode, images, job.customWidth, job.customHeight).value) == |images|
  {
    var t := ResizeTarget(job.mode, images, job.customWidth, job.customHeight).value;
    if job.mode == "max" || job.mode == "min" {
      assert t.width in Widths(images) && t.height in Heights(images);
    }
  }

  /** A negative custom side is refused at the first image: the run fails
      before writing anything. */
  lemma NegativeCustomSizeFails(job: ResizeJob, load: string -> Option<Image>, existing: set<string>, clock: seq<string>,
                                answers: seq<bool>, sizeOf: string -> nat)
    requires |clock| == |job.files| == |answers| && job.files != []
    requires forall k :: 0 <= k < |job.files| ==> load(job.files[k]).Some?
    requires job.mode == "custom" && job.customWidth == Some(-5)
    ensures ResizeOutcome(job, load, existing, clock, answers, sizeOf) == Err(ZeroSide)
    ensures ResizeFilesAfter(job, load, existing, clock, answers) == existing
  {
    var images := LoadAll(job.files, load).value;
    var t := ResizeTarget(job.mode, images, job.customWidth, job.customHeight).value;
    assert ResizeRefused(ImageSize(images[0]), t);
    var b := ResizeBatch(job, images, clock, answers, existing);
    assert b.ExistingAfter(0) == existing;
  }

  /** When no output exists beforehand and the outputs have distinct
      paths, every input is written and the records follow the input order. */
  lemma ResizeWritesAll(job: ResizeJob, images: seq<Image>, target: Size, clock: seq<string>, answers: seq<bool>,
                        existing: set<string>, sizeOf: string -> nat)
    requires |images| == |job.files| && |clock| == |job.files| && |answers| == |job.files|
    requires forall i :: 0 <= i < |job.files| ==> ResizePath(job, job.files[i], images[i], clock[i]) !in existing
    requires forall i, j :: 0 <= i < j < |job.files| ==>
               ResizePath(job, job.files[i], images[i], clock[i]) != ResizePath(job, job.files[j], images[j], clock[j])
    ensures var records := ResizeRecords(job, images, target, clock, sizeOf);
            ResizeBatch(job, images, clock, answers, existing).Kept(records, |job.files|) == records
  {
    var b := ResizeBatch(job, images, clock, answers, existing);
    var records := ResizeRecords(job, images, target, clock, sizeOf);
    FreshPathsAllWritten(b, records, |job.files|);
    assert records[..|job.files|] == records;
  }
}
