/** The region crop job (CropSplitThread): cut user-drawn regions out of one
    image into a folder of its own. A region is given as fractions of the
    image's width and height; its pixel box is each fraction times the
    side, truncated toward zero. */
module CropSplit {
  import opened Wrappers
  import opened Text
  import opened Paths
  import opened Formats
  import opened Overwrite
  import opened Images

  /** A region in fractions of the image: left edge, top edge, width, height. */
  datatype Region = Region(x: real, y: real, width: real, height: real)

  datatype CropJob = CropJob(imageFile: string, outputDir: string, regions: seq<Region>, quality: nat,
                             outputFormat: Option<string>)

  /** One entry of the finished list; `region` reads "区域{i+1}". */
  datatype CropRecord = CropRecord(input: string, output: string, folder: string, region: string, size: string,
                                   fileSize: nat)

  /** Python's int() on a float: the integer part, rounding toward zero. */
  function Trunc(r: real): (n: int)
    ensures 0.0 <= r ==> 0 <= n && n as real <= r < n as real + 1.0
    ensures r < 0.0 ==> n <= 0 && n as real - 1.0 < r <= n as real
  {
    if 0.0 <= r then r.Floor else -((-r).Floor)
  }

  /** Truncation keeps order. */
  lemma TruncMonotone(a: real, b: real)
    requires a <= b
    ensures Trunc(a) <= Trunc(b)
  {
    if 0.0 <= a {
      assert (Trunc(a) as real) <= b;
    } else if b < 0.0 {
      assert a <= (Trunc(b) as real);
    }
  }

  /** A fraction of a side of `side` pixels, before truncation. */
  function Scaled(fraction: real, side: nat): real {
    fraction * side as real
  }

  /** The pixel a fraction of a side of `side` pixels falls on. */
  function Edge(fraction: real, side: nat): int {
    Trunc(Scaled(fraction, side))
  }

  /** The pixel box of a region on a width x height image. */
  function PixelBox(region: Region, width: nat, height: nat): Box {
    Box(Edge(region.x, width), Edge(region.y, height), Edge(region.x + region.width, width),
        Edge(region.y + region.height, height))
  }

  /** Scaling by a non-negative factor keeps order. */
  lemma ScaleKeepsOrder(a: real, b: real, s: real)
    requires a <= b && 0.0 <= s
    ensures a * s <= b * s
  {
    assert b * s - a * s == (b - a) * s;
  }

  /** A larger fraction is a larger share of the same side. */
  lemma ScaledMonotone(a: real, b: real, side: nat)
    requires a <= b
    ensures Scaled(a, side) <= Scaled(b, side)
  {
    ScaleKeepsOrder(a, b, side as real);
  }

  /** A larger fraction never falls on an earlier pixel. */
  lemma EdgeMonotone(a: real, b: real, side: nat)
    requires a <= b
    ensures Edge(a, side) <= Edge(b, side)
  {
    ScaledMonotone(a, b, side);
    TruncMonotone(Scaled(a, side), Scaled(b, side));
  }

  /** The fractions 0 and 1 fall on the first and the last edge. */
  lemma EdgeEnds(side: nat)
    ensures Edge(0.0, side) == 0 && Edge(1.0, side) == side
  {
    assert Scaled(0.0, side) == 0.0;
    assert Scaled(1.0, side) == side as real;
  }

  /** A fraction inside [0, 1] falls on a pixel edge inside [0, side]. */
  lemma EdgeBounds(f: real, side: nat)
    requires 0.0 <= f <= 1.0
    ensures 0 <= Edge(f, side) <= side
  {
    EdgeEnds(side);
    EdgeMonotone(0.0, f, side);
    EdgeMonotone(f, 1.0, side);
  }

  /** A span [start, start + length] inside [0, 1], scaled to `side` pixels,
      truncates to edges inside [0, side] in order. */
  lemma EdgesWithin(start: real, length: real, side: nat)
    requires 0.0 <= start && 0.0 <= length && start + length <= 1.0
    ensures 0 <= Edge(start, side) <= Edge(start + length, side) <= side
  {
    EdgeBounds(start, side);
    EdgeBounds(start + length, side);
    EdgeMonotone(start, start + length, side);
  }

  /** A region that lies inside the image (non-negative fractions that do not
      pass the right or bottom edge) gets a box inside the image with its
      left edge before its right edge and its top above its bottom. */
  lemma PixelBoxWithin(region: Region, width: nat, height: nat)
    requires 0.0 <= region.x && 0.0 <= region.width && region.x + region.width <= 1.0
    requires 0.0 <= region.y && 0.0 <= region.height && region.y + region.height <= 1.0
    ensures var box := PixelBox(region, width, height);
            0 <= box.left <= box.right <= width && 0 <= box.top <= box.bottom <= height
  {
    EdgesWithin(region.x, region.width, width);
    EdgesWithin(region.y, region.height, height);
  }

  /** The top-left quarter of a 200x100 image is the box (0, 0, 100, 50);
      the whole-image region is the whole image; a region starting a quarter
      pixel-width left of a 10-pixel image starts at -2, not -3. */
  lemma PixelBoxExamples()
    ensures PixelBox(Region(0.0, 0.0, 0.5, 0.5), 200, 100) == Box(0, 0, 100, 50)
    ensures PixelBox(Region(0.0, 0.0, 1.0, 1.0), 640, 480) == Box(0, 0, 640, 480)
    ensures PixelBox(Region(-0.25, 0.0, 0.5, 1.0), 10, 10) == Box(-2, 0, 2, 10)
  {
    assert Trunc(-2.5) == -2;
    assert Trunc(2.5) == 2;
  }

  /** The folder "{stem}_crop_{count}_regions" inside the output directory. */
  function CropFolder(job: CropJob): string {
    Join(job.outputDir, Stem(job.imageFile) + "_crop_" + NatToString(|job.regions|) + "_regions")
  }

  function RegionLabel(i: nat): string {
    "区域" + NatToString(i + 1)
  }

  /** "{stem}_crop_{timestamp}_{i+1}{ext}" inside the folder. */
  function CropPath(job: CropJob, img: Image, i: nat, timestamp: string): string {
    var format := OutputFormat(Some(OriginalFormat(img, job.imageFile)), job.outputFormat);
    Join(CropFolder(job), Stem(job.imageFile) + "_crop_" + timestamp + "_" + NatToString(i + 1) + FileExtension(format))
  }

  function CropRecordFor(job: CropJob, img: Image, i: nat, path: string, sizeOf: string -> nat): CropRecord
    requires i < |job.regions|
  {
    var size := BoxSize(PixelBox(job.regions[i], img.width, img.height));
    CropRecord(job.imageFile, path, CropFolder(job), RegionLabel(i), SizeText(size.width, size.height), sizeOf(path))
  }

  /** The candidate outputs, one per region; the folder exists before the first. */
  function CropBatch(job: CropJob, img: Image, clock: seq<string>, answers: seq<bool>, existing: set<string>): (b: Batch)
    requires |clock| == |job.regions| && |answers| == |clock|
    ensures b.Valid() && |b.paths| == |clock| && CropFolder(job) in b.existing
  {
    Batch(seq(|clock|, i requires 0 <= i < |clock| => CropPath(job, img, i, clock[i])), answers,
          existing + {CropFolder(job)})
  }

  function CropRecords(job: CropJob, img: Image, clock: seq<string>, sizeOf: string -> nat): (rs: seq<CropRecord>)
    requires |clock| == |job.regions|
    ensures |rs| == |clock|
    ensures forall i :: 0 <= i < |rs| ==> rs[i].region == RegionLabel(i) && rs[i].folder == CropFolder(job)
  {
    seq(|clock|, i requires 0 <= i < |clock| => CropRecordFor(job, img, i, CropPath(job, img, i, clock[i]), sizeOf))
  }

  /** The job's result: the image unreadable, or the records of the written regions in order. */
  function CropOutcome(job: CropJob, load: string -> Option<Image>, existing: set<string>, clock: seq<string>,
                       answers: seq<bool>, sizeOf: string -> nat): Result<seq<CropRecord>, Failure>
    requires |clock| == |job.regions| && |answers| == |clock|
  {
    match load(job.imageFile)
    case None => Err(Unreadable(job.imageFile))
    case Some(img) => Ok(CropBatch(job, img, clock, answers, existing).Kept(CropRecords(job, img, clock, sizeOf), |clock|))
  }

  /** The file system after the job: the folder and the written regions are added. */
  function CropFilesAfter(job: CropJob, load: string -> Option<Image>, existing: set<string>, clock: seq<string>,
                          answers: seq<bool>): set<string>
    requires |clock| == |job.regions| && |answers| == |clock|
  {
    match load(job.imageFile)
    case None => existing
    case Some(img) => CropBatch(job, img, clock, answers, existing).ExistingAfter(|clock|)
  }

  /** CropSplitThread.run. */
  method RunCropSplit(job: CropJob, load: string -> Option<Image>, existing: set<string>, clock: seq<string>,
                      answers: seq<bool>, sizeOf: string -> nat)
    returns (outcome: Result<seq<CropRecord>, Failure>, after: set<string>)
    requires |clock| == |job.regions| && |answers| == |clock|
    ensures outcome == CropOutcome(job, load, existing, clock, answers, sizeOf)
    ensures after == CropFilesAfter(job, load, existing, clock, answers)
  {
    var loaded := load(job.imageFile);
    if loaded.None? {
      return Err(Unreadable(job.imageFile)), existing;
    }
    var img := loaded.value;
    var folder := CropFolder(job);
    after := existing;
    if folder !in after {
      after := after + {folder};
    }
    var results;
    results, after := CropRegions(job, img, clock, answers, after, sizeOf, CropBatch(job, img, clock, answers, existing),
                                  CropRecords(job, img, clock, sizeOf));
    outcome := Ok(results);
  }

  /** The per-region loop of CropSplitThread.run. */
  method CropRegions(job: CropJob, img: Image, clock: seq<string>, answers: seq<bool>, existing: set<string>,
                     sizeOf: string -> nat, ghost b: Batch, ghost records: seq<CropRecord>)
    returns (results: seq<CropRecord>, files: set<string>)
    requires |clock| == |job.regions| && |answers| == |clock|
    requires b.Valid() && |b.paths| == |clock| && b.answers == answers && b.existing == existing && |records| == |clock|
    requires forall i :: 0 <= i < |clock| ==> b.paths[i] == CropPath(job, img, i, clock[i])
    requires forall i :: 0 <= i < |clock| ==> records[i] == CropRecordFor(job, img, i, b.paths[i], sizeOf)
    ensures results == b.Kept(records, |clock|) && files == b.ExistingAfter(|clock|)
  {
    results, files := [], existing;
    for i := 0 to |job.regions|
      invariant results == b.Kept(records, i) && files == b.ExistingAfter(i)
    {
      files, results := CropOne(job, img, clock, answers, sizeOf, b, records, i, files, results);
    }
  }

  /** One pass of that loop: region i is cropped and written unless declined. */
  method CropOne(job: CropJob, img: Image, clock: seq<string>, answers: seq<bool>, sizeOf: string -> nat,
                 ghost b: Batch, ghost records: seq<CropRecord>, i: nat, files: set<string>, results: seq<CropRecord>)
    returns (files': set<string>, results': seq<CropRecord>)
    requires |clock| == |job.regions| && |answers| == |clock| && i < |clock|
    requires b.Valid() && |b.paths| == |clock| && b.answers == answers && |records| == |clock|
    requires b.paths[i] == CropPath(job, img, i, clock[i]) && records[i] == CropRecordFor(job, img, i, b.paths[i], sizeOf)
    requires files == b.ExistingAfter(i) && results == b.Kept(records, i)
    ensures files' == b.ExistingAfter(i + 1) && results' == b.Kept(records, i + 1)
  {
    var path := CropPath(job, img, i, clock[i]);
    var record := CropRecordFor(job, img, i, path, sizeOf);
    var written;
    written, files', results' := WriteUnlessDeclined(b, records, i, path, answers[i], record, files, results);
  }

  /** With no regions the job still creates its folder and finishes with an empty list. */
  lemma NoRegions(job: CropJob, load: string -> Option<Image>, existing: set<string>, sizeOf: string -> nat)
    requires job.regions == [] && load(job.imageFile).Some?
    ensures CropOutcome(job, load, existing, [], [], sizeOf) == Ok([])
    ensures CropFilesAfter(job, load, existing, [], []) == existing + {CropFolder(job)}
  {
  }

  /** Two regions never share a file, whatever the clock read for each:
      the region number is the last '_'-separated part of the name. */
  lemma CropPathsDistinct(job: CropJob, img: Image, i: nat, j: nat, t1: string, t2: string)
    requires i != j
    ensures CropPath(job, img, i, t1) != CropPath(job, img, j, t2)
  {
    var format := OutputFormat(Some(OriginalFormat(img, job.imageFile)), job.outputFormat);
    var ext := FileExtension(format);
    ExtensionWithoutUnderscore(format);
    StemNameRelative(job.imageFile, "_crop_");
    if CropPath(job, img, i, t1) == CropPath(job, img, j, t2) {
      TaggedJoinCancel(CropFolder(job), Stem(job.imageFile) + "_crop_", t1, i + 1, t2, j + 1, ext);
    }
  }

  /** When none of the region files exists yet, every
      region is written and reported, numbered from 1 in the order given. */
  lemma FreshCropWritesEveryRegion(job: CropJob, img: Image, clock: seq<string>, answers: seq<bool>,
                                   existing: set<string>, sizeOf: string -> nat)
    requires |clock| == |job.regions| && |answers| == |clock|
    requires var b := CropBatch(job, img, clock, answers, existing);
             forall i :: 0 <= i < |clock| ==> b.paths[i] !in b.existing
    ensures var records := CropBatch(job, img, clock, answers, existing).Kept(CropRecords(job, img, clock, sizeOf), |clock|);
            |records| == |job.regions| && forall i :: 0 <= i < |records| ==> records[i].region == RegionLabel(i)
  {
    var b := CropBatch(job, img, clock, answers, existing);
    var rs := CropRecords(job, img, clock, sizeOf);
    forall i, j | 0 <= i < j < |clock|
      ensures b.paths[i] != b.paths[j]
    {
      CropPathsDistinct(job, img, i, j, clock[i], clock[j]);
    }
    FreshPathsAllWritten(b, rs, |clock|);
    assert rs[..|clock|] == rs;
  }

  /** Every reported region is one of the job's regions, cropped to its pixel box. */
  lemma CropRecordsMatchRegions(job: CropJob, load: string -> Option<Image>, existing: set<string>, clock: seq<string>,
                                answers: seq<bool>, sizeOf: string -> nat)
    requires |clock| == |job.regions| && |answers| == |clock|
    requires load(job.imageFile).Some?
    ensures var img := load(job.imageFile).value;
            forall r :: r in CropOutcome(job, load, existing, clock, answers, sizeOf).value ==>
              r.folder == CropFolder(job) &&
              exists i :: 0 <= i < |job.regions| && r.region == RegionLabel(i) && r.output == CropPath(job, img, i, clock[i]) &&
                          var box := BoxSize(PixelBox(job.regions[i], img.width, img.height));
                          r.size == SizeText(box.width, box.height)
  {
    var img := load(job.imageFile).value;
    var b := CropBatch(job, img, clock, answers, existing);
    var records := CropRecords(job, img, clock, sizeOf);
    forall r | r in b.Kept(records, |clock|)
      ensures r.folder == CropFolder(job)
      ensures exists i :: 0 <= i < |job.regions| && r.region == RegionLabel(i) && r.output == CropPath(job, img, i, clock[i]) &&
                          var box := BoxSize(PixelBox(job.regions[i], img.width, img.height));
                          r.size == SizeText(box.width, box.height)
    {
      KeptMembers(b, records, |clock|, r);
    }
  }
}
