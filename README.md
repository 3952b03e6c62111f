# Image Toolbox batch jobs in Dafny

This project models the batch image jobs of Image Toolbox, a desktop
image tool. The jobs are:

- resize a set of images to one shared size;
- compress a set of images;
- stitch a list of images into one canvas;
- split one image into a grid of blocks;
- cut user-drawn regions out of one image.

It also models the stitching page's list of images, which fixes the order
the stitch geometry depends on.

An image is the record the jobs read from it: its width, its height, the
format the decoder detected, its pixel mode and whether its metadata
carries a transparency entry. The outside world becomes inputs:

- opening a file is `load: string -> Option<Image>`, where `None` means
  the file cannot be opened;
- the file system at the start of a job is a set of paths. It grows with
  every write, so a later output with the same name is asked about;
- the clock is one timestamp string per output;
- the operator's answer to an overwrite prompt is one `bool` per output.
  It is consulted only when the output path already exists;
- file byte sizes come from `sizeOf: string -> nat`;
- `os.path.isfile` is `isFile: string -> bool`.

Each job is a method that runs the source's loop and returns the job's
result and the files present afterwards. Its postcondition equates both
with a specification function (`ResizeOutcome`, `GridOutcome`, ...). Those
functions are built on one shared rule, `Overwrite.Batch`: the written
items are exactly those whose path did not exist or whose overwrite was
allowed, and the results are the records of the written items in input
order. Lemmas state what the source promises about these functions.

Pillow's `Image.resize` is not part of this model. The model takes it to
refuse a target with a side below one pixel, unless the target is the
image's own size, which is copied. A refused resize raises inside the job,
which reports it as the failure `ZeroSide`. The jobs can hit this case:

- Resize, with a custom size below one pixel;
- Compress, at a scale that leaves a side at zero;
- Stitch, when compression or an aspect-kept resize leaves a side at zero.

Each compress record carries a `dimensions` field, the size the image
was written at. The source's result dictionaries have no such entry. The
model adds it so that lemmas can speak of the written size.

Modules, one per concern of the source:

- `Wrappers`: Option and Result.
- `Text`: decimal rendering and ASCII case mapping.
- `Paths`: POSIX basename, dirname, splitext and join.
- `Images`: the image record, failures, LoadAll, max and min.
- `Formats`: `get_output_format`, `get_file_extension` and the stitch save rules.
- `Overwrite`: the overwrite rule and the `OverwriteGate` handshake state.
- `Resize`, `Compress`, `Stitch` (with the `StitchJob` class), `GridSplit` and `CropSplit`.
- `Ordering`: Python's string order and a reference sort.
- `StitcherPage`: the `StitcherPage` class with the image list.

## Model

| member | source | states |
|---|---|---|
| Formats.OutputFormat | src/core/image_processor.py:38-50 | A non-empty requested format wins. Otherwise the original wins, with "JPG" read as "JPEG". Otherwise the result is "JPEG". The result is "JPG" exactly when "JPG" was requested. |
| Formats.ResolveTwice | src/core/image_processor.py:48-50 | Resolving a resolved format again, with nothing requested, gives it back exactly when it is not "JPG". |
| Formats.FileExtension | src/core/image_processor.py:53-67 | The extension is one of .jpg, .png and .webp. It is .png exactly for PNG and .webp exactly for WEBP; anything else (BMP, JPG) gets .jpg. |
| Formats.ExtensionWithoutUnderscore | src/core/image_processor.py:53-67 | No extension contains '_', so a number written just before it ends where the extension starts. |
| Formats.StitchExtension | src/core/image_processor.py:519-519 | The stitch extension is .png exactly for PNG and .jpg for everything else, None included. |
| Formats.StitchExtensionDiffers | src/core/image_processor.py:519-519 | The stitch extension rule and get_file_extension disagree exactly on WEBP. |
| Formats.StitchSaveFor | src/core/image_processor.py:532-536 | A JPEG stitch is flattened to RGB and saved at quality 95. Any other format is saved with no quality and no flattening. |
| Text.NatToString | src/core/image_processor.py:603-603 | The decimal text of a count is non-empty and all digits. |
| Text.NatToStringRoundTrip | src/core/image_processor.py:628-628 | Reading the decimal text back gives the number. |
| Text.NatToStringInjective | src/core/image_processor.py:628-628 | Different numbers in a file name give different texts. |
| Text.IntToStringChars | src/core/image_processor.py:181-182 | str() of an integer holds only digits and minus signs. |
| Text.IntToStringInjective | src/core/image_processor.py:181-182 | Different integers give different texts, so the "{w}x{h}" texts tell sizes apart. |
| Text.LowerUpper | src/core/image_processor.py:148-148 | Lower-casing an upper-cased text gives the lower-cased original: upper() loses only case. |
| Text.CaseIdempotent | src/core/image_processor.py:148-148 | upper() and lower() change nothing the second time. |
| Text.CaseExamples | src/core/image_processor.py:148-148 | "png", "jpg" and "WebP" upper-case to "PNG", "JPG" and "WEBP"; ".PNG" and ".Jpeg" lower-case to ".png" and ".jpeg". |
| Paths.LastIndex | src/core/image_processor.py:151-151 | The result is the position of the last occurrence of the character, or -1 when there is none. |
| Paths.Basename | src/core/image_processor.py:151-151 | The basename is a suffix of the path and holds no '/'. |
| Paths.BasenameAfterSlash | src/core/image_processor.py:151-151 | The basename is the whole path or starts right after a '/': it is everything after the last slash. |
| Paths.StripTrailingSlashes | src/core/image_processor.py:512-512 | The result is a prefix of the input with no trailing '/'. Only slashes were removed. |
| Paths.Dirname | src/core/image_processor.py:512-512 | The dirname is a prefix of the path, empty for a path without '/'. |
| Paths.DirnameSpec | src/core/image_processor.py:512-512 | The dirname ends before the slashes in front of the basename, keeping a lone root "/" and dropping trailing slashes otherwise (IsDirname). |
| Paths.DirnameUnique | src/core/image_processor.py:512-512 | At most one prefix meets the dirname description, so Dirname is exactly POSIX dirname. |
| Paths.DirnameExamples | src/core/image_processor.py:512-512 | "a/b" and "a//b" give "a", "/a" gives "/", and "b" gives "". |
| Paths.SplitExt | src/core/image_processor.py:152-152 | Root and extension concatenate to the path. The extension is empty, or a dot followed by no other dot and no '/'. |
| Paths.SplitExtWhen | src/core/image_processor.py:152-152 | There is an extension exactly when the basename has a '.' after some other character: leading dots do not start one. |
| Paths.SplitExtExamples | src/core/image_processor.py:152-152 | "d/a.b.PNG" splits into "d/a.b" and ".PNG"; "d/.rc" and "a.d/b" have no extension. |
| Paths.StemParts | src/core/image_processor.py:151-152 | The stem holds no '/'; stem and extension of the basename concatenate to the basename. |
| Paths.ExtensionShape | src/core/image_processor.py:148-148 | The extension is a suffix of the path: empty, or a dot followed by no other dot and no '/'. |
| Paths.JoinParts | src/core/image_processor.py:155-155 | The joined path ends with the second part. A relative second part follows the first, behind exactly one added '/' when the first does not end in one; an absolute one replaces it. |
| Paths.JoinCancel | src/core/image_processor.py:629-629 | Two relative names joined onto the same directory give the same path only when they are equal. |
| Paths.BasenameOfJoin | src/core/image_processor.py:155-155 | A file name joined onto any directory is the basename of the joined path. |
| Images.LoadAll | src/core/image_processor.py:119-126 | Loading succeeds exactly when every file opens, and then gives each file's image in order. Otherwise it fails naming a file that does not open, all files before it having opened. |
| Images.LoadAllFirstFailure | src/core/image_processor.py:119-126 | Opening files in order fails on the first file that does not open. |
| Images.OriginalFormatSpec | src/core/image_processor.py:148-148 | A detected format is used as is. Otherwise it is the extension without its dot, upper-cased: the same letters up to case, with no lower-case letter left. No format and no extension give "". |
| Images.OriginalFormatExamples | src/core/image_processor.py:148-148 | An undetected "d/photo.jpeg" gives "JPEG"; a detected "PNG" wins over the name; an empty detected format counts as none. |
| Images.SizeText | src/core/image_processor.py:181-182 | The "{w}x{h}" text holds an 'x'. |
| Images.NumberedJoinCancel | src/core/image_processor.py:744-745 | Two numbered relative names joined onto one folder give the same path only with the same head and number. |
| Images.TaggedJoinCancel | src/core/image_processor.py:744-745 | Two names with a shared prefix, a tag and a number give the same path only with the same tag and number. |
| Images.SizeTextInjective | src/core/image_processor.py:181-182 | Different sizes give different "{w}x{h}" texts. |
| Images.NumberedTail | src/core/image_processor.py:628-628 | A number written after the last '_' of a name, before an extension without '_', can be read back, and so can everything before it. |
| Images.Max | src/core/image_processor.py:129-130 | max() of a non-empty list is an element no smaller than any element. |
| Images.Min | src/core/image_processor.py:132-133 | min() of a non-empty list is an element no larger than any element. |
| Overwrite.ExistingAfterIsUnion | src/core/image_processor.py:157-184 | After n items the files are the starting files plus exactly the paths of the written items. |
| Overwrite.CandidatesExistAfter | src/core/image_processor.py:157-184 | Once n items are handled every starting file is still there and each item's path exists, written or kept. |
| Overwrite.WrittenIff | src/core/image_processor.py:157-165 | An item is written exactly when its overwrite is allowed, or its path is neither a starting file nor the path of an earlier written item. |
| Overwrite.DeclinedLeavesNoTrace | src/core/image_processor.py:157-165 | A declined item with an existing path is not written and adds no file. |
| Overwrite.WrittenIndicesSpec | src/core/image_processor.py:157-165 | The written indices increase, stay below n and are exactly the written items. |
| Overwrite.KeptSelects | src/core/image_processor.py:178-184 | The results are the records of the written items, one each, in input order. |
| Overwrite.KeptMembers | src/core/image_processor.py:178-184 | Every result is the record of some written item. |
| Overwrite.FreshPathsAllWritten | src/core/image_processor.py:157-165 | When no output exists beforehand and the outputs have distinct paths, every item is written and the results are all records in order. |
| Overwrite.AllAllowedAllWritten | src/core/image_processor.py:157-165 | When every overwrite is allowed, every item is written. |
| Overwrite.WriteUnlessDeclined | src/core/image_processor.py:157-184 | One loop step writes exactly when the path is absent or the answer allows it, adding the path and the record. This is step i of the batch. |
| Overwrite.OverwriteGate.constructor | src/core/image_processor.py:97-98 | A new job allows overwriting and is not waiting. |
| Overwrite.OverwriteGate.SetOverwriteAllowed | src/core/image_processor.py:105-111 | The stored answer becomes the given one. The waiting flag is unchanged. |
| Overwrite.OverwriteGate.Consult | src/core/image_processor.py:157-165 | The worker proceeds exactly when the path is absent or the answer allows it. It stores the answer only when it asked. |
| Resize.ResizeTarget | src/core/image_processor.py:128-136 | "max" gives the largest width and height and "min" the smallest; both fail on no images. Any other mode gives the custom size, with 800 and 600 for a missing or zero side. |
| Resize.FirstRefused | src/core/image_processor.py:146-146 | Every image before the returned index can be resized to the target, and the one at it cannot. |
| Resize.RunResize | src/core/image_processor.py:113-192 | The run's result and files equal ResizeOutcome and ResizeFilesAfter: a failure when an image does not open, the target fails or Pillow refuses a resize, otherwise the records of the written outputs in input order. |
| Resize.WriteResized | src/core/image_processor.py:140-186 | The loop stops with ZeroSide at the first image Pillow refuses to resize, with the outputs before it written. Otherwise it leaves exactly the written records, in order. Its files are those after the handled items. |
| Resize.ResizeOne | src/core/image_processor.py:143-184 | One image is written unless declined: the batch advances by one item. |
| Resize.ResizeRecordsShareTarget | src/core/image_processor.py:178-184 | Every record of a finished run carries the one shared target size. It belongs to an input, with that input's resized name and original size. |
| Resize.ResizeNoImages | src/core/image_processor.py:128-136 | With no images, "max" and "min" fail and a custom size finishes with an empty list. |
| Resize.ResizeWritesAll | src/core/image_processor.py:155-184 | With fresh, distinct output paths every image is written and reported in input order. |
| Resize.PositiveSidesNeverRefused | src/core/image_processor.py:128-146 | With images of at least one pixel a side and a custom size of at least one pixel, every resize is accepted. |
| Resize.NegativeCustomSizeFails | src/core/image_processor.py:135-146 | A custom width of -5 is kept, not defaulted, and the first resize fails with nothing written. |
| Compress.CompressedSize | src/core/image_processor.py:242-245 | Below 100% each side is scale percent of the original, rounded down. At 100% or more the size is unchanged. |
| Compress.HalfScaleHalves | src/core/image_processor.py:242-245 | At 50% each side is halved, rounding down. |
| Compress.Ratio | src/core/image_processor.py:282-282 | The ratio is 0 for an empty original, so nothing is divided by zero. Otherwise it is at most 100. It is non-negative exactly when the file did not grow, and 100 exactly when the new file is empty. |
| Compress.Prepare | src/core/image_processor.py:239-245 | A file that does not open fails as unreadable. An opened file is refused only below 100%, when scaling would leave a side under one pixel; otherwise it passes unchanged. |
| Compress.PreparedHasPixels | src/core/image_processor.py:242-245 | A file that passes is written at its own size or with at least one pixel a side. |
| Compress.FirstFailing | src/core/image_processor.py:236-245 | Every file before the returned index opens and scales, and the file at it fails. |
| Compress.CompressSourceFormat | src/core/image_processor.py:242-247 | At 100% or more the detected format counts. Below 100% the resized copy has no detected format, so only the file name counts. |
| Compress.RunCompress | src/core/image_processor.py:231-291 | The result equals CompressOutcome: the failure of the first file that does not open or would shrink to nothing, or else the records of the written outputs in order. The files after the run include the outputs written before a failure. |
| Compress.CompressEach | src/core/image_processor.py:236-285 | The loop stops with the failure of the first file that fails to open or scale. Otherwise it ends with the written records. The files reflect every item handled. |
| Compress.CompressStep | src/core/image_processor.py:236-283 | One iteration either stops at the failing file, changing nothing, or advances the batch by one item. |
| Compress.OpenAndScale | src/core/image_processor.py:239-245 | Opening and scaling one file gives Prepare's image or failure. |
| Compress.CompressOne | src/core/image_processor.py:239-283 | One opened file is written unless declined: the batch advances by one item. |
| Compress.CompressCandidates | src/core/image_processor.py:247-254 | Each candidate before the first failing file opens and scales, and has the loop's path, answer and record. |
| Compress.ScaledJpgPath | src/core/image_processor.py:242-254 | A scaled-down "*.jpg" input is written as .jpg when no format is requested. The scaled image has no detected format, so the extension decides. |
| Compress.HalfScaleScenario | src/core/image_processor.py:242-254 | At 50%, with nothing requested, every record of "*.jpg" inputs has halved dimensions and a "{stem}_compressed_{ts}.jpg" name. |
| Compress.TinyScaleStopsRun | src/core/image_processor.py:242-245 | At 1%, a 200x300 image followed by a 99x400 one: the first is written, then the run fails with ZeroSide. |
| Stitch.Along | src/core/image_processor.py:403-413 | A size built from a main and a cross extent has exactly those extents. |
| Stitch.Crosses | src/core/image_processor.py:389-391 | One cross extent per image, in order. |
| Stitch.ScaledMonotone | src/core/image_processor.py:408-411 | Scaling keeps order and non-negativity. |
| Stitch.ScaledAdd | src/core/image_processor.py:408-453 | Scaling two parts and adding never exceeds adding and then scaling. |
| Stitch.UniformMain | src/core/image_processor.py:397-401 | The uniform main extent fails exactly when some image has no cross extent, and then with a division by zero. |
| Stitch.UniformMainErrStays | src/core/image_processor.py:397-401 | A failure on a prefix of the images is a failure of the whole list. |
| Stitch.CalculateCanvasSize | src/core/image_processor.py:384-441 | The method's canvas equals Canvas: the aggregates are scaled once, after summing or taking the maximum. Uniform modes take the scaled max or min cross extent and sum the aspect-kept main extents. |
| Stitch.Canvas | src/core/image_processor.py:384-441 | The canvas fails exactly on no images (EmptySequence) or, in the uniform modes, on an image without cross extent (a division by zero). Its cross extent is then the scaled largest or smallest cross extent, or covers every scaled image outside the uniform modes. |
| Stitch.CanvasExtents | src/core/image_processor.py:384-441 | Both extents of the canvas. Outside the uniform modes the main extent is the scaled sum of the main extents and the cross extent is the scaled largest cross extent, attained by some image. In the uniform modes the main extent is the UniformMain fold at the canvas's own cross extent: the sum of every image's aspect-kept main extent, rounded down. |
| Stitch.CanvasCovers | src/core/image_processor.py:389-413 | Every scaled cross extent is at most the scaled largest one. |
| Stitch.AspectSize | src/core/image_processor.py:454-463 | The aspect-kept resize has exactly the canvas's cross extent. |
| Stitch.AspectSizeSpec | src/core/image_processor.py:454-463 | The aspect-kept resize has the canvas's cross extent, and its main extent is the largest whose ratio to that cross extent does not exceed the image's: `L' * B <= B' * L < (L' + 1) * B`. |
| Stitch.PastedSizeSpec | src/core/image_processor.py:448-463 | A refused compression resize fails with ZeroSide. Outside the uniform modes the size is the scaled one. In the uniform modes it is the scaled size resized by AspectSize, so it has the canvas's cross extent and the aspect-kept main extent. Without compression it fails exactly when the image has no cross extent or the aspect resize is refused. A pasted size is the image's own or has at least one pixel a side. |
| Stitch.UniformTotal | src/core/image_processor.py:397-403 | The summing loop gives UniformMain's total, or its division-by-zero failure. |
| Stitch.Place | src/core/image_processor.py:478-505 | An image is placed at the given main offset, at its pasted size, at the cross offset of the align mode. |
| Stitch.CrossOffset | src/core/image_processor.py:478-503 | Uniform modes and top or left alignment paste at 0, bottom or right alignment flush with the far edge, and any other mode centred: the space before is at most the space after, by under one pixel. |
| Stitch.Layout | src/core/image_processor.py:443-505 | Laying out succeeds exactly when every image has a pasted size, with one placement per image. A failure is that of the first image without one. |
| Stitch.LayoutPlaces | src/core/image_processor.py:445-505 | Image k is placed at its pasted size, starting where images 0..k-1 end, in input order. |
| Stitch.LayoutLast | src/core/image_processor.py:478-505 | The last image is placed where the others end. |
| Stitch.MainExtentSnoc | src/core/image_processor.py:491-505 | Adding a placement extends the reach by its main extent. |
| Stitch.LayoutErrStays | src/core/image_processor.py:448-464 | A failure on a prefix of the images is a failure of the whole list. |
| Stitch.StitchImages | src/core/image_processor.py:443-505 | The running offsets of the loop give exactly Layout's placements. |
| Stitch.NonUniformWithinCanvas | src/core/image_processor.py:404-463 | Outside the uniform modes the layout succeeds exactly when no compression resize is refused. Then every image fits across the canvas; together they never pass its main extent, but may fall short of it. |
| Stitch.CrossOffsetFits | src/core/image_processor.py:478-503 | Top, bottom and centre offsets keep an image that fits across inside the canvas. |
| Stitch.ExtentWithinSum | src/core/image_processor.py:404-453 | Outside the uniform modes a successful layout reaches at most the scaled sum of the main extents. |
| Stitch.SumNonNegative | src/core/image_processor.py:406-406 | The sum of the main extents is non-negative. |
| Stitch.UniformExactWithoutCompression | src/core/image_processor.py:384-480 | In the uniform modes without compression the layout succeeds exactly when no aspect resize is refused. Then the images fill the canvas: each spans the whole cross extent from 0, and their main extents add up to the canvas's. |
| Stitch.UniformPastes | src/core/image_processor.py:454-463 | In the uniform modes without compression every image gets a pasted size exactly when no aspect resize is refused. |
| Stitch.UniformExtent | src/core/image_processor.py:397-464 | Without compression a successful layout's main extents add up to the uniform total. |
| Stitch.UniformCompressedOverflow | src/core/image_processor.py:393-459 | A 9x5 image enlarged at 50% gets a 3x2 canvas but is pasted 4x2: compression can paste past the canvas. |
| Stitch.ShrinkThinImageFails | src/core/image_processor.py:454-458 | Shrinking 1x1 and 1x100 side by side gives a 1x1 canvas, and the 1x100 image would be resized to width 0, so the layout fails with ZeroSide. |
| Stitch.LeftAlignCentresHorizontalStitch | src/core/image_processor.py:478-491 | Left alignment does not apply to a horizontal stitch: a shorter image is centred. |
| Stitch.StitchFormat | src/core/image_processor.py:349-353 | Choosing the format fails exactly on an empty image list. |
| Stitch.StitchFormatSharedOrJpeg | src/core/image_processor.py:349-353 | The format is the images' one shared format, or JPEG as soon as two differ. |
| Stitch.TransparentOnlyForPng | src/core/image_processor.py:349-368 | The canvas is transparent RGBA exactly when every image was detected as PNG and one of them is transparent. |
| Stitch.StitchJob.constructor | src/core/image_processor.py:302-319 | The job holds the files, parameters, directory and name it was given. |
| Stitch.StitchJob.SaveResult | src/core/image_processor.py:509-538 | The directory defaults to the first input's, and the name to "{first stem}_stitched_{ts}"; both stay set. The result is the path, or None when the file exists and the overwrite is declined. |
| Stitch.StitchJob.Run | src/core/image_processor.py:334-382 | The run equals StitchOutcome: load, format, canvas, layout, save. A saved path is added to the files, and a failure leaves the job unchanged. |
| GridSplit.BlocksTile | src/core/image_processor.py:588-622 | Along each axis the blocks tile the side: the first starts at 0 and each starts where the last ended. All but the last are side // n long; the last ends at the side and takes the remainder. |
| GridSplit.GridExample | src/core/image_processor.py:614-622 | A 100x50 image in 3x2 blocks: the last column is 34 pixels wide, the others 33. |
| GridSplit.CellsInGrid | src/core/image_processor.py:609-610 | Every block visited lies in the grid. |
| GridSplit.CellsCount | src/core/image_processor.py:595-595 | X times Y blocks are visited. |
| GridSplit.CellsPrefix | src/core/image_processor.py:609-610 | The blocks of the first y rows are visited before all others. |
| GridSplit.CellAt | src/core/image_processor.py:611-611 | Block (x, y) is the (y*X+x+1)-th block visited. |
| GridSplit.CellsRowMajor | src/core/image_processor.py:609-610 | The blocks are visited row-major: an earlier row first, then left to right. |
| GridSplit.GridBatch | src/core/image_processor.py:626-629 | There is one candidate output per block, and the folder exists before the first. |
| GridSplit.GridNamesCancel | src/core/image_processor.py:628-629 | Two block names under the same folder and prefix give the same path only with the same row and column numbers. |
| GridSplit.BlockPathsDistinct | src/core/image_processor.py:626-629 | Two different blocks never share a path, whatever the clock read: the row and column numbers can be read back from the name. |
| GridSplit.RunGridSplit | src/core/image_processor.py:579-668 | The result and files equal GridOutcome and GridFilesAfter. The image may be unreadable, a split count may be zero, or the result is the written blocks' records in visiting order. |
| GridSplit.SplitBlocks | src/core/image_processor.py:609-661 | The outer loop leaves exactly the written records, in order, and the files after all blocks. |
| GridSplit.RowAt | src/core/image_processor.py:609-611 | Row y occupies the X places after the first y rows. |
| GridSplit.RowEntries | src/core/image_processor.py:609-629 | The candidates of row y are its blocks, left to right, with their paths and records. |
| GridSplit.SplitRow | src/core/image_processor.py:610-661 | The inner loop advances the batch over the X blocks of one row. |
| GridSplit.SplitOne | src/core/image_processor.py:614-658 | One block is cut and written unless declined: the batch advances by one item. |
| GridSplit.FreshSplitWritesEveryBlock | src/core/image_processor.py:651-658 | When no block path exists beforehand, all X times Y blocks are reported, row-major, with their "row y column x" labels. |
| CropSplit.Trunc | src/core/image_processor.py:736-739 | int() truncates toward zero. |
| CropSplit.TruncMonotone | src/core/image_processor.py:736-739 | Truncation keeps order. |
| CropSplit.EdgeMonotone | src/core/image_processor.py:736-739 | A larger fraction never gives a smaller truncated edge. |
| CropSplit.ScaledMonotone | src/core/image_processor.py:736-739 | A larger fraction is a larger share of the same side, before truncation. |
| CropSplit.EdgeEnds | src/core/image_processor.py:736-739 | The fractions 0 and 1 fall on edge 0 and on the full side. |
| CropSplit.EdgeBounds | src/core/image_processor.py:736-739 | A fraction inside [0, 1] gives an edge inside [0, side]. |
| CropSplit.EdgesWithin | src/core/image_processor.py:736-739 | A span inside [0, 1], scaled to a side, gives edges inside [0, side], in order. |
| CropSplit.PixelBoxWithin | src/core/image_processor.py:736-741 | A region inside the image gets a box inside the image with left <= right and top <= bottom. |
| CropSplit.PixelBoxExamples | src/core/image_processor.py:736-739 | (0, 0, .5, .5) on 200x100 is the box (0, 0, 100, 50). A region left of the image keeps its negative edge, truncated toward zero. |
| CropSplit.CropBatch | src/core/image_processor.py:743-746 | There is one candidate output per region, and the folder exists before the first. |
| CropSplit.CropPathsDistinct | src/core/image_processor.py:742-745 | Two different regions never share a path, whatever the clock read: the region number can be read back from the name. |
| CropSplit.CropRecords | src/core/image_processor.py:768-775 | Record i is labelled region i+1 and names the job's folder. |
| CropSplit.RunCropSplit | src/core/image_processor.py:707-785 | The result and files equal CropOutcome and CropFilesAfter: the image is unreadable, or the result is the written regions' records in order. |
| CropSplit.CropRegions | src/core/image_processor.py:733-778 | The loop leaves exactly the written records, in order, and the files after all regions. |
| CropSplit.CropOne | src/core/image_processor.py:741-775 | One region is cut and written unless declined: the batch advances by one item. |
| CropSplit.NoRegions | src/core/image_processor.py:727-731 | With no regions the folder is still created and the list is empty. |
| CropSplit.FreshCropWritesEveryRegion | src/core/image_processor.py:768-775 | When no region path exists beforehand, every region is reported, numbered from 1 in the given order. |
| CropSplit.CropRecordsMatchRegions | src/core/image_processor.py:733-775 | Every record is one of the job's regions, in the job's folder, under its numbered name, with its pixel box's size. |
| Ordering.StrLeReflexive | src/ui/pages/image_stitcher_page.py:141-141 | Every name sorts no later than itself. |
| Ordering.StrLeTotal | src/ui/pages/image_stitcher_page.py:141-141 | Any two names are comparable. |
| Ordering.StrLeAntisymmetric | src/ui/pages/image_stitcher_page.py:141-141 | Two names that each sort no later than the other are equal. |
| Ordering.StrLeTransitive | src/ui/pages/image_stitcher_page.py:141-141 | String order is transitive. |
| Ordering.StrLeExamples | src/ui/pages/image_stitcher_page.py:141-141 | Code-point order puts "B.png" before "a.png" and a proper prefix first. |
| Ordering.Insert | src/ui/pages/image_stitcher_page.py:141-141 | Inserting adds exactly the one name. |
| Ordering.InsertSorted | src/ui/pages/image_stitcher_page.py:141-141 | Inserting into a sorted list keeps it sorted. |
| Ordering.Sort | src/ui/pages/image_stitcher_page.py:141-141 | The sorted list is sorted and holds exactly the same names. |
| Ordering.SortedUnique | src/ui/pages/image_stitcher_page.py:141-141 | Two sorted lists with the same names are equal. |
| Ordering.SortIgnoresOrder | src/ui/pages/image_stitcher_page.py:141-141 | Sorting any rearrangement gives the same list. |
| StitcherPage.AcceptedFiles | src/ui/pages/image_stitcher_page.py:133-137 | The accepted names are exactly the dropped regular files with a .png, .jpg, .jpeg, .bmp or .webp extension in any case. |
| StitcherPage.AcceptedFilesCounts | src/ui/pages/image_stitcher_page.py:133-140 | Every accepted file is kept as often as it was dropped and every other file not at all, so a file dropped twice is listed and counted twice. |
| StitcherPage.RemoveAt | src/ui/pages/image_stitcher_page.py:167-167 | pop(i) removes entry i, keeping the others in order. |
| StitcherPage.InsertAt | src/ui/pages/image_stitcher_page.py:168-168 | insert(i, x) puts x at i, shifting the later entries by one. |
| StitcherPage.InsertAtRemoveAt | src/ui/pages/image_stitcher_page.py:167-168 | Popping entry i and inserting it back at i restores the list. |
| StitcherPage.RemoveAtInsertAt | src/ui/pages/image_stitcher_page.py:167-168 | Inserting at i and popping at i restores the list. |
| StitcherPage.Moved | src/ui/pages/image_stitcher_page.py:164-168 | A move keeps the length and puts the image from `from` at `to`. |
| StitcherPage.MovedSpec | src/ui/pages/image_stitcher_page.py:164-168 | A move keeps the length and the images and puts the moved one at `to`. The others keep their order, and moving back undoes it. |
| StitcherPage.StitcherPage.constructor | src/ui/pages/image_stitcher_page.py:24-26 | The page starts with an empty list and "就绪" status. |
| StitcherPage.StitcherPage.Drop | src/ui/pages/image_stitcher_page.py:129-143 | With no accepted file nothing changes. Otherwise the list becomes a sorted list of the old images plus the accepted ones, and the status counts both. |
| StitcherPage.StitcherPage.MoveImage | src/ui/pages/image_stitcher_page.py:164-170 | With both indices in range the image moves to `to` and the others keep their order. Otherwise nothing changes. |
| StitcherPage.StitcherPage.DeleteImage | src/ui/pages/image_stitcher_page.py:172-185 | An index in range asks about that file, and a confirmation removes exactly it. Otherwise nothing changes. |
| StitcherPage.StitcherPage.ClearList | src/ui/pages/image_stitcher_page.py:187-199 | Only a non-empty list asks. A confirmation empties it and sets the status to "就绪"; otherwise nothing changes. |
| StitcherPage.StitcherPage.StartStitching | src/ui/pages/image_stitcher_page.py:201-229 | No job is started with fewer than two images. Otherwise a new job gets the list and the parameters. |
| StitcherPage.DropOrderIrrelevant | src/ui/pages/image_stitcher_page.py:140-141 | Dropping the same images in any order onto lists with the same images gives the same list. Any manual order is discarded. |
| StitcherPage.DropMembers | src/ui/pages/image_stitcher_page.py:133-141 | After a drop an image is listed exactly when it was listed before or was dropped and accepted. |

## Left out

- Threads, signals, progress and status messages of the jobs are not modelled. The operator's answer is an input per output, consulted only when the output exists.
- PIL pixel work is not modelled: resampling, alpha compositing, `convert_to_rgb` and encoder options. Only sizes, formats and modes are.
- PIL's own errors on crops with zero or inverted size are not modelled. A region with right < left gives a negative size in the record.
- Floats are idealised. Stitch scaling is exact `n * scale / 100` rounded down, and aspect ratios are exact `target * w / h` rounded down. Python's floats can give one less, for example `int(100 * 0.57)` is 56, not 57. Region fractions are exact reals.
- The compress ratio is an exact real, not a float.
- Case mapping is ASCII only, and paths follow POSIX rules only.
- Exceptions other than those modelled are not modelled: a failed write, a failed `os.makedirs`, a file that disappears between two opens.
- Resize opens every image twice; the model reads each once, so a file that changes between the two opens is not covered.
- The page's thumbnails, dialogs and InfoBar are not modelled; a dialog's answer is a `confirm` parameter.
- src/utils/constants.py and the watermark remover are not part of this model.
- Stitch.StitchJob.SaveResult: requires a first input or a given directory and name, because the source reaches the save only after loading at least one image.
- StitcherPage.StitcherPage.StartStitching: the source hands the job the page's own list object (src/ui/pages/image_stitcher_page.py:221). Later drops, moves, deletes and clears on the page are therefore seen by a job that is still running. The model gives the job a copy of the list, so that aliasing is not captured.
- Resize.WriteResized: finds the first image Pillow would refuse before its loop starts, where the source discovers it when that image's resize raises. The files written, their order and the outcome are the same; only the moment of the check differs.
