/** The grid split job (GridSplitThread): cut one image into xSplits by
    ySplits blocks, row by row, into a folder of its own. Every block is
    width / xSplits by height / ySplits pixels (rounded down) except the
    last column and the last row, which take what is left over. */
module GridSplit {
  import opened Wrappers
  import opened Text
  import opened Paths
  import opened Formats
  import opened Overwrite
  import opened Images

  datatype GridJob = GridJob(imageFile: string, outputDir: string, xSplits: nat, ySplits: nat, quality: nat,
                             outputFormat: Option<string>)

  /** One entry of the finished list; `position` reads "row y, column x" (both from 1). */
  datatype GridRecord = GridRecord(input: string, output: string, folder: string, position: string, size: string,
                                   fileSize: nat)

  /** Block i of n along one axis of `length` pixels, as (start, end):
      length / n pixels, except that the last block runs to the end. */
  function Span(length: nat, n: nat, i: nat): (int, int)
    requires i < n
  {
    var unit := length / n;
    (i * unit, if i == n - 1 then length else i * unit + unit)
  }

  /** The crop box of the block in column x and row y. */
  function BlockBox(width: nat, height: nat, xSplits: nat, ySplits: nat, x: nat, y: nat): Box
    requires x < xSplits && y < ySplits
  {
    var column := Span(width, xSplits, x);
    var row := Span(height, ySplits, y);
    Box(column.0, row.0, column.1, row.1)
  }

  lemma MulMonotone(a: nat, b: nat, c: nat)
    requires a <= b
    ensures a * c <= b * c
  {
    assert b * c == a * c + (b - a) * c;
  }

  /** The blocks along an axis tile it: the first starts at 0, each next
      one starts where the previous one ends, all but the last are
      length / n long, and the last ends at `length`, taking the remainder. */
  lemma BlocksTile(length: nat, n: nat, i: nat)
    requires i < n
    ensures 0 <= Span(length, n, i).0 <= Span(length, n, i).1 <= length
    ensures i == 0 ==> Span(length, n, i).0 == 0
    ensures i < n - 1 ==> Span(length, n, i).1 == Span(length, n, i + 1).0 &&
                          Span(length, n, i).1 - Span(length, n, i).0 == length / n
    ensures i == n - 1 ==> Span(length, n, i).1 == length &&
                           Span(length, n, i).1 - Span(length, n, i).0 == length / n + length % n
  {
    var unit := length / n;
    var r := length % n;
    assert length == n * unit + r && 0 <= r;
    assert (i + 1) * unit == i * unit + unit;
    MulMonotone(i + 1, n, unit);
    MulMonotone(0, i, unit);
    if i == n - 1 {
      assert n * unit == i * unit + unit;
    }
  }

  /** A 100x50 image in 3x2 blocks: the last block is 34 pixels wide, the others 33. */
  lemma GridExample()
    ensures BlockBox(100, 50, 3, 2, 0, 0) == Box(0, 0, 33, 25)
    ensures BlockBox(100, 50, 3, 2, 1, 0) == Box(33, 0, 66, 25)
    ensures BlockBox(100, 50, 3, 2, 2, 1) == Box(66, 25, 100, 50)
  {
  }

  /** The folder "{stem}_split_{x}x{y}" inside the output directory. */
  function GridFolder(job: GridJob): string {
    Join(job.outputDir, Stem(job.imageFile) + "_split_" + NatToString(job.xSplits) + "x" + NatToString(job.ySplits))
  }

  function Position(x: nat, y: nat): string {
    "第" + NatToString(y + 1) + "行第" + NatToString(x + 1) + "列"
  }

  /** "{stem}_split_{timestamp}_{row}_{column}{ext}" inside the folder. */
  function BlockPath(job: GridJob, img: Image, x: nat, y: nat, timestamp: string): string {
    var format := OutputFormat(Some(OriginalFormat(img, job.imageFile)), job.outputFormat);
    Join(GridFolder(job), Stem(job.imageFile) + "_split_" + timestamp + "_" + NatToString(y + 1) + "_" +
                          NatToString(x + 1) + FileExtension(format))
  }

  function BlockRecord(job: GridJob, img: Image, x: nat, y: nat, path: string, sizeOf: string -> nat): GridRecord
    requires x < job.xSplits && y < job.ySplits
  {
    var size := BoxSize(BlockBox(img.width, img.height, job.xSplits, job.ySplits, x, y));
    GridRecord(job.imageFile, path, GridFolder(job), Position(x, y), SizeText(size.width, size.height), sizeOf(path))
  }

  /** The blocks of row y, left to right, as (column, row). */
  function Row(xSplits: nat, y: nat): (row: seq<(nat, nat)>)
    ensures |row| == xSplits && forall x :: 0 <= x < xSplits ==> row[x] == (x, y)
  {
    seq(xSplits, x requires 0 <= x < xSplits => (x, y))
  }

  /** The blocks of the first ySplits rows in the order they are cut: row
      by row, left to right within a row. */
  function Cells(xSplits: nat, ySplits: nat): seq<(nat, nat)> {
    if ySplits == 0 then [] else Cells(xSplits, ySplits - 1) + Row(xSplits, ySplits - 1)
  }

  /** Every block cut lies inside the grid. */
  lemma {:induction false} CellsInGrid(xSplits: nat, ySplits: nat)
    ensures forall k :: 0 <= k < |Cells(xSplits, ySplits)| ==>
              Cells(xSplits, ySplits)[k].0 < xSplits && Cells(xSplits, ySplits)[k].1 < ySplits
  {
    if ySplits > 0 {
      CellsInGrid(xSplits, ySplits - 1);
      var init := Cells(xSplits, ySplits - 1);
      var row := Row(xSplits, ySplits - 1);
      var cells := Cells(xSplits, ySplits);
      assert cells == init + row;
      forall k | 0 <= k < |cells|
        ensures cells[k].0 < xSplits && cells[k].1 < ySplits
      {
        if k < |init| {
          assert cells[k] == init[k];
        } else {
          assert cells[k] == row[k - |init|];
        }
      }
    }
  }

  lemma {:induction false} CellsCount(xSplits: nat, ySplits: nat)
    ensures |Cells(xSplits, ySplits)| == xSplits * ySplits
  {
    if ySplits > 0 {
      CellsCount(xSplits, ySplits - 1);
      assert xSplits * ySplits == xSplits * (ySplits - 1) + xSplits;
    }
  }

  /** The blocks of the first y rows are cut before the others. */
  lemma {:induction false} CellsPrefix(xSplits: nat, y: nat, ySplits: nat)
    requires y <= ySplits
    ensures |Cells(xSplits, y)| <= |Cells(xSplits, ySplits)|
    ensures Cells(xSplits, ySplits)[..|Cells(xSplits, y)|] == Cells(xSplits, y)
  {
    if y < ySplits {
      CellsPrefix(xSplits, y, ySplits - 1);
      var init := Cells(xSplits, ySplits - 1);
      assert Cells(xSplits, ySplits)[..|init|] == init;
    }
  }

  /** Block (x, y) is cut right after the first y full rows and the x blocks before it in its row. */
  lemma CellAt(xSplits: nat, ySplits: nat, x: nat, y: nat)
    requires x < xSplits && y < ySplits
    ensures |Cells(xSplits, y)| + x < |Cells(xSplits, ySplits)|
    ensures Cells(xSplits, ySplits)[|Cells(xSplits, y)| + x] == (x, y)
  {
    var upTo := Cells(xSplits, y + 1);
    var k := |Cells(xSplits, y)| + x;
    assert k < |upTo| && upTo[k] == (x, y) by {
      assert upTo == Cells(xSplits, y) + Row(xSplits, y);
    }
    assert k < |Cells(xSplits, ySplits)| && Cells(xSplits, ySplits)[k] == upTo[k] by {
      CellsPrefix(xSplits, y + 1, ySplits);
      assert Cells(xSplits, ySplits)[..|upTo|][k] == Cells(xSplits, ySplits)[k];
    }
  }

  /** Blocks in an earlier row, or earlier in the same row, come first. */
  predicate RowMajor(cells: seq<(nat, nat)>) {
    forall i, j :: 0 <= i < j < |cells| ==>
      cells[i].1 < cells[j].1 || (cells[i].1 == cells[j].1 && cells[i].0 < cells[j].0)
  }

  /** The blocks are cut in row-major order. */
  lemma {:induction false} CellsRowMajor(xSplits: nat, ySplits: nat)
    ensures RowMajor(Cells(xSplits, ySplits))
  {
    if ySplits > 0 {
      CellsRowMajor(xSplits, ySplits - 1);
      CellsInGrid(xSplits, ySplits - 1);
      var init := Cells(xSplits, ySplits - 1);
      var row := Row(xSplits, ySplits - 1);
      var cells := Cells(xSplits, ySplits);
      assert cells == init + row;
      forall i, j | 0 <= i < j < |cells|
        ensures cells[i].1 < cells[j].1 || (cells[i].1 == cells[j].1 && cells[i].0 < cells[j].0)
      {
        if j < |init| {
          assert cells[i] == init[i] && cells[j] == init[j];
        } else if i < |init| {
          assert cells[i] == init[i] && init[i].1 < ySplits - 1;
          assert cells[j] == row[j - |init|] == (j - |init|, ySplits - 1);
        } else {
          assert cells[i] == row[i - |init|] == (i - |init|, ySplits - 1);
          assert cells[j] == row[j - |init|] == (j - |init|, ySplits - 1);
        }
      }
    }
  }

  function GridBatch(job: GridJob, img: Image, clock: seq<string>, answers: seq<bool>, existing: set<string>): (b: Batch)
    requires |clock| == job.xSplits * job.ySplits && |answers| == |clock|
    ensures b.Valid() && |b.paths| == |clock| && GridFolder(job) in b.existing
  {
    var cells := Cells(job.xSplits, job.ySplits);
    CellsCount(job.xSplits, job.ySplits);
    Batch(seq(|cells|, k requires 0 <= k < |cells| => BlockPath(job, img, cells[k].0, cells[k].1, clock[k])),
          answers, existing + {GridFolder(job)})
  }

  function GridRecords(job: GridJob, img: Image, clock: seq<string>, sizeOf: string -> nat): (rs: seq<GridRecord>)
    requires |clock| == job.xSplits * job.ySplits
    ensures |rs| == |clock|
  {
    var cells := Cells(job.xSplits, job.ySplits);
    CellsCount(job.xSplits, job.ySplits);
    CellsInGrid(job.xSplits, job.ySplits);
    seq(|cells|, k requires 0 <= k < |cells| =>
      BlockRecord(job, img, cells[k].0, cells[k].1, BlockPath(job, img, cells[k].0, cells[k].1, clock[k]), sizeOf))
  }

  /** The job's result: the image unreadable, a zero split count, or the records of the written blocks in row-major order. */
  function GridOutcome(job: GridJob, load: string -> Option<Image>, existing: set<string>, clock: seq<string>,
                       answers: seq<bool>, sizeOf: string -> nat): Result<seq<GridRecord>, Failure>
    requires |clock| == job.xSplits * job.ySplits && |answers| == |clock|
  {
    match load(job.imageFile)
    case None => Err(Unreadable(job.imageFile))
    case Some(img) =>
      if job.xSplits == 0 || job.ySplits == 0 then Err(DivisionByZero)
      else Ok(GridBatch(job, img, clock, answers, existing).Kept(GridRecords(job, img, clock, sizeOf), |clock|))
  }

  /** The file system after the job: the folder and the written blocks are added. */
  function GridFilesAfter(job: GridJob, load: string -> Option<Image>, existing: set<string>, clock: seq<string>,
                          answers: seq<bool>): set<string>
    requires |clock| == job.xSplits * job.ySplits && |answers| == |clock|
  {
    match load(job.imageFile)
    case None => existing
    case Some(img) =>
      if job.xSplits == 0 || job.ySplits == 0 then existing
      else GridBatch(job, img, clock, answers, existing).ExistingAfter(|clock|)
  }

  /** GridSplitThread.run. */
  method RunGridSplit(job: GridJob, load: string -> Option<Image>, existing: set<string>, clock: seq<string>,
                      answers: seq<bool>, sizeOf: string -> nat)
    returns (outcome: Result<seq<GridRecord>, Failure>, after: set<string>)
    requires |clock| == job.xSplits * job.ySplits && |answers| == |clock|
    ensures outcome == GridOutcome(job, load, existing, clock, answers, sizeOf)
    ensures after == GridFilesAfter(job, load, existing, clock, answers)
  {
    var loaded := load(job.imageFile);
    if loaded.None? {
      return Err(Unreadable(job.imageFile)), existing;
    }
    if job.xSplits == 0 || job.ySplits == 0 {
      return Err(DivisionByZero), existing;
    }
    var img := loaded.value;
    var folder := GridFolder(job);
    after := existing;
    if folder !in after {
      after := after + {folder};
    }
    var results;
    CellsCount(job.xSplits, job.ySplits);
    CellsInGrid(job.xSplits, job.ySplits);
    results, after := SplitBlocks(job, img, clock, answers, after, sizeOf, Cells(job.xSplits, job.ySplits),
                                  GridBatch(job, img, clock, answers, existing), GridRecords(job, img, clock, sizeOf));
    outcome := Ok(results);
  }

  /** Candidate k of the batch is block cells[k], with its output path and record. */
  predicate BlockEntry(job: GridJob, img: Image, clock: seq<string>, sizeOf: string -> nat, cells: seq<(nat, nat)>,
                       b: Batch, records: seq<GridRecord>, k: nat)
    requires k < |clock| == |cells| == |b.paths| == |records|
  {
    var (x, y) := cells[k];
    x < job.xSplits && y < job.ySplits &&
    b.paths[k] == BlockPath(job, img, x, y, clock[k]) && records[k] == BlockRecord(job, img, x, y, b.paths[k], sizeOf)
  }

  /** The outer loop of GridSplitThread.run: the blocks row by row. */
  method SplitBlocks(job: GridJob, img: Image, clock: seq<string>, answers: seq<bool>, existing: set<string>,
                     sizeOf: string -> nat, ghost cells: seq<(nat, nat)>, ghost b: Batch, ghost records: seq<GridRecord>)
    returns (results: seq<GridRecord>, files: set<string>)
    requires |answers| == |clock|
    requires b.Valid() && |b.paths| == |clock| && b.answers == answers && b.existing == existing && |records| == |clock|
    requires cells == Cells(job.xSplits, job.ySplits) && |cells| == |clock|
    requires forall k :: 0 <= k < |clock| ==> BlockEntry(job, img, clock, sizeOf, cells, b, records, k)
    ensures results == b.Kept(records, |clock|)
    ensures files == b.ExistingAfter(|clock|)
  {
    results, files := [], existing;
    var k := 0;
    for y := 0 to job.ySplits
      invariant k == |Cells(job.xSplits, y)| && k <= |clock|
      invariant results == b.Kept(records, k) && files == b.ExistingAfter(k)
    {
      RowEntries(job, img, clock, sizeOf, cells, b, records, y);
      results, files := SplitRow(job, img, clock, answers, sizeOf, b, records, y, k, results, files);
      k := k + job.xSplits;
    }
  }

  /** Entry x of s after the first `start`. */
  function At<T>(s: seq<T>, start: nat, x: nat): T
    requires start + x < |s|
  {
    s[start + x]
  }

  /** Row y occupies the xSplits places after the first y rows. */
  lemma RowAt(xSplits: nat, ySplits: nat, y: nat)
    requires y < ySplits
    ensures |Cells(xSplits, y + 1)| == |Cells(xSplits, y)| + xSplits <= |Cells(xSplits, ySplits)|
    ensures forall x :: 0 <= x < xSplits ==> At(Cells(xSplits, ySplits), |Cells(xSplits, y)|, x) == (x, y)
  {
    CellsPrefix(xSplits, y + 1, ySplits);
    forall x | 0 <= x < xSplits
      ensures At(Cells(xSplits, ySplits), |Cells(xSplits, y)|, x) == (x, y)
    {
      CellAt(xSplits, ySplits, x, y);
    }
  }

  /** The candidate outputs and records of row y. */
  lemma RowEntries(job: GridJob, img: Image, clock: seq<string>, sizeOf: string -> nat, cells: seq<(nat, nat)>,
                   b: Batch, records: seq<GridRecord>, y: nat)
    requires |b.paths| == |clock| && |records| == |clock|
    requires cells == Cells(job.xSplits, job.ySplits) && |cells| == |clock|
    requires forall k :: 0 <= k < |clock| ==> BlockEntry(job, img, clock, sizeOf, cells, b, records, k)
    requires y < job.ySplits
    ensures |Cells(job.xSplits, y + 1)| == |Cells(job.xSplits, y)| + job.xSplits <= |clock|
    ensures forall x :: 0 <= x < job.xSplits ==> RowEntry(job, img, clock, sizeOf, b, records, |Cells(job.xSplits, y)|, x, y)
  {
    RowAt(job.xSplits, job.ySplits, y);
    var start := |Cells(job.xSplits, y)|;
    forall x | 0 <= x < job.xSplits
      ensures RowEntry(job, img, clock, sizeOf, b, records, start, x, y)
    {
      assert At(cells, start, x) == (x, y);
      EntryAt(job, img, clock, sizeOf, cells, b, records, start, x, y);
    }
  }

  lemma EntryAt(job: GridJob, img: Image, clock: seq<string>, sizeOf: string -> nat, cells: seq<(nat, nat)>,
                b: Batch, records: seq<GridRecord>, start: nat, x: nat, y: nat)
    requires |b.paths| == |clock| && |records| == |clock| && |cells| == |clock| && start + x < |clock|
    requires BlockEntry(job, img, clock, sizeOf, cells, b, records, start + x) && At(cells, start, x) == (x, y)
    ensures RowEntry(job, img, clock, sizeOf, b, records, start, x, y)
  {
  }

  /** Candidate start + x of the batch is block (x, y), with its output path and record. */
  predicate RowEntry(job: GridJob, img: Image, clock: seq<string>, sizeOf: string -> nat, b: Batch,
                     records: seq<GridRecord>, start: nat, x: nat, y: nat)
    requires start + x < |clock| == |b.paths| == |records|
  {
    x < job.xSplits && y < job.ySplits && b.paths[start + x] == BlockPath(job, img, x, y, clock[start + x]) &&
    records[start + x] == BlockRecord(job, img, x, y, b.paths[start + x], sizeOf)
  }

  /** The inner loop of GridSplitThread.run: the blocks of row y, left to right. */
  method SplitRow(job: GridJob, img: Image, clock: seq<string>, answers: seq<bool>, sizeOf: string -> nat,
                  ghost b: Batch, ghost records: seq<GridRecord>, y: nat, start: nat,
                  results0: seq<GridRecord>, files0: set<string>)
    returns (results: seq<GridRecord>, files: set<string>)
    requires |answers| == |clock| && y < job.ySplits
    requires b.Valid() && |b.paths| == |clock| && b.answers == answers && |records| == |clock|
    requires start + job.xSplits <= |clock|
    requires forall x :: 0 <= x < job.xSplits ==> RowEntry(job, img, clock, sizeOf, b, records, start, x, y)
    requires results0 == b.Kept(records, start) && files0 == b.ExistingAfter(start)
    ensures results == b.Kept(records, start + job.xSplits)
    ensures files == b.ExistingAfter(start + job.xSplits)
  {
    results, files := results0, files0;
    var k := start;
    for x := 0 to job.xSplits
      invariant k == start + x
      invariant results == b.Kept(records, k) && files == b.ExistingAfter(k)
    {
      EntryOf(job, img, clock, sizeOf, b, records, start, x, k, y);
      files, results := SplitOne(job, img, clock, answers, sizeOf, b, records, x, k, y, files, results);
      k := k + 1;
    }
  }

  /** Entry x of row y, read at its number k. */
  lemma EntryOf(job: GridJob, img: Image, clock: seq<string>, sizeOf: string -> nat, b: Batch,
                records: seq<GridRecord>, start: nat, x: nat, k: nat, y: nat)
    requires k == start + x < |clock| == |b.paths| == |records|
    requires RowEntry(job, img, clock, sizeOf, b, records, start, x, y)
    ensures x < job.xSplits && y < job.ySplits
    ensures b.paths[k] == BlockPath(job, img, x, y, clock[k]) && records[k] == BlockRecord(job, img, x, y, b.paths[k], sizeOf)
  {
  }

  /** One pass of the inner loop: block (x, y), number k, is cut and written unless declined. */
  method SplitOne(job: GridJob, img: Image, clock: seq<string>, answers: seq<bool>, sizeOf: string -> nat,
                  ghost b: Batch, ghost records: seq<GridRecord>, x: nat, k: nat, y: nat,
                  files: set<string>, results: seq<GridRecord>)
    returns (files': set<string>, results': seq<GridRecord>)
    requires |answers| == |clock| && k < |clock|
    requires b.Valid() && |b.paths| == |clock| && b.answers == answers && |records| == |clock|
    requires x < job.xSplits && y < job.ySplits
    requires b.paths[k] == BlockPath(job, img, x, y, clock[k]) && records[k] == BlockRecord(job, img, x, y, b.paths[k], sizeOf)
    requires files == b.ExistingAfter(k) && results == b.Kept(records, k)
    ensures files' == b.ExistingAfter(k + 1) && results' == b.Kept(records, k + 1)
  {
    var path := BlockPath(job, img, x, y, clock[k]);
    var record := BlockRecord(job, img, x, y, path, sizeOf);
    var written;
    written, files', results' := WriteUnlessDeclined(b, records, k, path, answers[k], record, files, results);
  }

  /** Two blocks never share a file, whatever the clock read for each: the
      column and row numbers are the last two '_'-separated parts of the name. */
  lemma BlockPathsDistinct(job: GridJob, img: Image, x1: nat, y1: nat, x2: nat, y2: nat, t1: string, t2: string)
    requires (x1, y1) != (x2, y2)
    ensures BlockPath(job, img, x1, y1, t1) != BlockPath(job, img, x2, y2, t2)
  {
    var format := OutputFormat(Some(OriginalFormat(img, job.imageFile)), job.outputFormat);
    var ext := FileExtension(format);
    ExtensionWithoutUnderscore(format);
    StemNameRelative(job.imageFile, "_split_");
    if BlockPath(job, img, x1, y1, t1) == BlockPath(job, img, x2, y2, t2) {
      GridNamesCancel(GridFolder(job), Stem(job.imageFile) + "_split_", t1, y1 + 1, x1 + 1, t2, y2 + 1, x2 + 1, ext);
    }
  }

  /** Block names "{x}{t}_{row}_{column}{ext}" in one folder give the same
      path only for the same row and column. */
  lemma GridNamesCancel(folder: string, x: string, t1: string, r1: nat, c1: nat, t2: string, r2: nat, c2: nat, ext: string)
    requires x != [] && x[0] != '/' && '_' !in ext
    requires Join(folder, x + t1 + "_" + NatToString(r1) + "_" + NatToString(c1) + ext) ==
             Join(folder, x + t2 + "_" + NatToString(r2) + "_" + NatToString(c2) + ext)
    ensures r1 == r2 && c1 == c2
  {
    var p1, p2 := x + t1, x + t2;
    StartKept(x, t1);
    StartKept(x, t2);
    StartKept(p1, "_");
    StartKept(p2, "_");
    StartKept(p1 + "_", NatToString(r1));
    StartKept(p2 + "_", NatToString(r2));
    NumberedJoinCancel(folder, p1 + "_" + NatToString(r1), c1, p2 + "_" + NatToString(r2), c2, ext);
    assert p1 + "_" + NatToString(r1) + [] == p2 + "_" + NatToString(r2) + [];
    NumberedTail(p1, r1, p2, r2, []);
  }

  /** When none of the block files exists yet, every
      block is written and reported, in the order the blocks are cut. */
  lemma FreshSplitWritesEveryBlock(job: GridJob, img: Image, clock: seq<string>, answers: seq<bool>,
                                   existing: set<string>, sizeOf: string -> nat)
    requires |clock| == job.xSplits * job.ySplits && |answers| == |clock|
    requires var b := GridBatch(job, img, clock, answers, existing);
             forall k :: 0 <= k < |clock| ==> b.paths[k] !in b.existing
    ensures var records := GridBatch(job, img, clock, answers, existing).Kept(GridRecords(job, img, clock, sizeOf), |clock|);
            var cells := Cells(job.xSplits, job.ySplits);
            |records| == job.xSplits * job.ySplits &&
            forall k :: 0 <= k < |records| ==> records[k].position == Position(cells[k].0, cells[k].1)
  {
    var b := GridBatch(job, img, clock, answers, existing);
    var rs := GridRecords(job, img, clock, sizeOf);
    var cells := Cells(job.xSplits, job.ySplits);
    CellsCount(job.xSplits, job.ySplits);
    CellsRowMajor(job.xSplits, job.ySplits);
    forall i, j | 0 <= i < j < |clock|
      ensures b.paths[i] != b.paths[j]
    {
      BlockPathsDistinct(job, img, cells[i].0, cells[i].1, cells[j].0, cells[j].1, clock[i], clock[j]);
    }
    FreshPathsAllWritten(b, rs, |clock|);
    assert rs[..|clock|] == rs;
  }
}
