/** The stitch job (StitchThread): load every image, choose one output
    format, size a canvas, paste the images one after another along the
    main axis (left to right, or top to bottom) and save the canvas once.

    Everything about geometry is written once over a main axis and a cross
    axis: horizontally the main extent is the width and the cross extent
    the height, vertically the other way round. */
module Stitch {
  import opened Wrappers
  import opened Paths
  import opened Formats
  import opened Overwrite
  import opened Images

  /** The align modes offered by the stitcher page. */
  const Enlarge := "等比例放大到同一尺寸"
  const Shrink := "等比例缩小到同一尺寸"
  const AlignTop := "顶部对齐"
  const AlignBottom := "底部对齐"
  const AlignLeft := "左侧对齐"
  const AlignRight := "右侧对齐"

  datatype StitchParams = StitchParams(compressEnabled: bool, scale: nat, isHorizontal: bool, alignMode: string)

  /** One pasted image: the canvas position of its top left corner and its size. */
  datatype Placement = Placement(left: int, top: int, size: Size)

  /** Enlarge and shrink bring every image to the same cross extent. */
  predicate Uniform(p: StitchParams) {
    p.alignMode == Enlarge || p.alignMode == Shrink
  }

  /** The extent along the stitching direction. */
  function Length(s: Size, horizontal: bool): int {
    if horizontal then s.width else s.height
  }

  /** The extent across the stitching direction. */
  function Breadth(s: Size, horizontal: bool): int {
    if horizontal then s.height else s.width
  }

  function Along(main: int, cross: int, horizontal: bool): (s: Size)
    ensures Length(s, horizontal) == main && Breadth(s, horizontal) == cross
  {
    if horizontal then Size(main, cross) else Size(cross, main)
  }

  function MainPos(pl: Placement, horizontal: bool): int {
    if horizontal then pl.left else pl.top
  }

  function CrossPos(pl: Placement, horizontal: bool): int {
    if horizontal then pl.top else pl.left
  }

  function Crosses(images: seq<Image>, horizontal: bool): (cs: seq<int>)
    ensures |cs| == |images| && forall k :: 0 <= k < |images| ==> cs[k] == Breadth(ImageSize(images[k]), horizontal)
  {
    if horizontal then Heights(images) else Widths(images)
  }

  /** The sum of the main extents. */
  function MainSum(images: seq<Image>, horizontal: bool): int {
    if images == [] then 0
    else MainSum(images[..|images| - 1], horizontal) + Length(ImageSize(images[|images| - 1]), horizontal)
  }

  /** A length after the optional compression: scale percent of it, rounded down. */
  function Scaled(n: int, p: StitchParams): int {
    if p.compressEnabled then n * p.scale / 100 else n
  }

  /** Multiplying by a non-negative factor keeps order. */
  lemma MulKeepsOrder(a: int, b: int, s: nat)
    requires 0 <= a <= b
    ensures 0 <= a * s <= b * s
  {
    assert b * s == a * s + (b - a) * s;
  }

  /** Taking the percentage of a sum: scale distributes over the two parts. */
  lemma MulDistributes(a: int, b: int, s: nat)
    ensures (a + b) * s == a * s + b * s
  {
  }

  /** Dividing by 100 keeps order. */
  lemma HundredthsKeepOrder(x: int, y: int)
    requires 0 <= x <= y
    ensures 0 <= x / 100 <= y / 100
  {
  }

  /** Dividing the parts by 100 and adding never gives more than adding and dividing. */
  lemma HundredthsAdd(x: int, y: int)
    requires 0 <= x && 0 <= y
    ensures x / 100 + y / 100 <= (x + y) / 100
  {
    assert (x / 100 + y / 100) * 100 <= x + y;
  }

  lemma ScaledMonotone(a: int, b: int, p: StitchParams)
    requires 0 <= a <= b
    ensures 0 <= Scaled(a, p) <= Scaled(b, p)
  {
    if p.compressEnabled {
      MulKeepsOrder(a, b, p.scale);
      HundredthsKeepOrder(a * p.scale, b * p.scale);
    }
  }

  /** Scaling the parts and adding never gives more than adding and scaling. */
  lemma ScaledAdd(a: int, b: int, sum: int, p: StitchParams)
    requires 0 <= a && 0 <= b && sum == a + b
    ensures Scaled(a, p) + Scaled(b, p) <= Scaled(sum, p)
  {
    if p.compressEnabled {
      MulKeepsOrder(0, a, p.scale);
      MulKeepsOrder(0, b, p.scale);
      MulDistributes(a, b, p.scale);
      HundredthsAdd(a * p.scale, b * p.scale);
    }
  }

  /** The main extent of an image of size `s` resized to cross extent
      `target` with its aspect ratio kept, rounded down. */
  function AspectExtent(target: int, s: Size, horizontal: bool): int
    requires Breadth(s, horizontal) != 0
  {
    target * Length(s, horizontal) / Breadth(s, horizontal)
  }

  /** The uniform modes' main extent: each image at cross extent `target`
      keeps its aspect ratio, rounded down; an image without cross extent
      is a division by zero. */
  function UniformMain(target: int, images: seq<Image>, horizontal: bool): (r: Result<int, Failure>)
    ensures r.Err? <==> exists k :: 0 <= k < |images| && Breadth(ImageSize(images[k]), horizontal) == 0
    ensures r.Err? ==> r.error == DivisionByZero
  {
    if images == [] then Ok(0)
    else
      var init := images[..|images| - 1];
      var s := ImageSize(images[|images| - 1]);
      assert forall k :: 0 <= k < |init| ==> init[k] == images[k];
      match UniformMain(target, init, horizontal)
      case Err(e) => Err(e)
      case Ok(total) =>
        if Breadth(s, horizontal) == 0 then Err(DivisionByZero)
        else Ok(total + AspectExtent(target, s, horizontal))
  }

  /** The canvas size (_calculate_canvas_size). It fails exactly on no
      images, and in the uniform modes on an image without cross extent;
      its cross extent is the scaled target in the uniform modes and covers
      every scaled image otherwise. CanvasExtents gives both extents. */
  function Canvas(images: seq<Image>, p: StitchParams): (r: Result<Size, Failure>)
    ensures r.Err? <==> images == [] ||
                        (Uniform(p) && exists k :: 0 <= k < |images| && Breadth(ImageSize(images[k]), p.isHorizontal) == 0)
    ensures images == [] ==> r == Err(EmptySequence)
    ensures images != [] && r.Err? ==> r.error == DivisionByZero
    ensures r.Ok? && Uniform(p) ==>
              var crosses := Crosses(images, p.isHorizontal);
              exists k :: 0 <= k < |images| && Breadth(r.value, p.isHorizontal) == Scaled(crosses[k], p) &&
                          (if p.alignMode == Enlarge then IsMax(crosses, crosses[k]) else IsMin(crosses, crosses[k]))
    ensures r.Ok? && !Uniform(p) ==>
              forall k :: 0 <= k < |images| ==> Scaled(Breadth(ImageSize(images[k]), p.isHorizontal), p) <= Breadth(r.value, p.isHorizontal)
  {
    var h := p.isHorizontal;
    if images == [] then Err(EmptySequence)
    else
      CanvasCovers(images, p);
      if Uniform(p) then
        var target := Scaled(if p.alignMode == Enlarge then Max(Crosses(images, h)) else Min(Crosses(images, h)), p);
        match UniformMain(target, images, h)
        case Err(e) => Err(e)
        case Ok(total) => Ok(Along(total, target, h))
      else Ok(Along(Scaled(MainSum(images, h), p), Scaled(Max(Crosses(images, h)), p), h))
  }

  /** Both extents of the canvas. In the uniform modes the main extent is the
      sum of every image's aspect-kept main extent at the canvas's cross
      extent; otherwise the main extent is the scaled sum of the main extents
      and the cross extent the scaled largest cross extent. */
  lemma CanvasExtents(images: seq<Image>, p: StitchParams)
    ensures var r := Canvas(images, p);
            var h := p.isHorizontal;
            var crosses := Crosses(images, h);
            (r.Ok? && Uniform(p) ==> UniformMain(Breadth(r.value, h), images, h) == Ok(Length(r.value, h))) &&
            (r.Ok? && !Uniform(p) ==>
               Length(r.value, h) == Scaled(MainSum(images, h), p) &&
               exists k :: 0 <= k < |images| && Breadth(r.value, h) == Scaled(crosses[k], p) && IsMax(crosses, crosses[k]))
  {
  }

  lemma CanvasCovers(images: seq<Image>, p: StitchParams)
    requires images != []
    ensures forall k :: 0 <= k < |images| ==>
              Scaled(Breadth(ImageSize(images[k]), p.isHorizontal), p) <= Scaled(Max(Crosses(images, p.isHorizontal)), p)
  {
    var cs := Crosses(images, p.isHorizontal);
    forall k | 0 <= k < |images|
      ensures Scaled(Breadth(ImageSize(images[k]), p.isHorizontal), p) <= Scaled(Max(cs), p)
    {
      ScaledMonotone(cs[k], Max(cs), p);
    }
  }

  /** Once a prefix of the images makes the uniform sum fail, the whole list does. */
  lemma {:induction false} UniformMainErrStays(target: int, images: seq<Image>, horizontal: bool, n: nat)
    requires n <= |images| && UniformMain(target, images[..n], horizontal).Err?
    ensures UniformMain(target, images, horizontal) == Err(DivisionByZero)
  {
    var k :| 0 <= k < n && Breadth(ImageSize(images[..n][k]), horizontal) == 0;
    assert images[..n][k] == images[k];
  }

  /** _calculate_canvas_size. */
  method CalculateCanvasSize(images: seq<Image>, p: StitchParams) returns (r: Result<Size, Failure>)
    ensures r == Canvas(images, p)
  {
    var h := p.isHorizontal;
    if images == [] {
      return Err(EmptySequence);
    }
    if Uniform(p) {
      var target := if p.alignMode == Enlarge then Max(Crosses(images, h)) else Min(Crosses(images, h));
      target := Scaled(target, p);
      var total := UniformTotal(target, images, h);
      r := if total.Err? then Err(total.error) else Ok(Along(total.value, target, h));
    } else {
      r := Ok(Along(Scaled(MainSum(images, h), p), Scaled(Max(Crosses(images, h)), p), h));
    }
  }

  /** The summing loop of the uniform modes in _calculate_canvas_size. */
  method UniformTotal(target: int, images: seq<Image>, horizontal: bool) returns (r: Result<int, Failure>)
    ensures r == UniformMain(target, images, horizontal)
  {
    var total := 0;
    for i := 0 to |images|
      invariant UniformMain(target, images[..i], horizontal) == Ok(total)
    {
      var s := ImageSize(images[i]);
      assert images[..i + 1][..i] == images[..i];
      if Breadth(s, horizontal) == 0 {
        UniformMainErrStays(target, images, horizontal, i + 1);
        return Err(DivisionByZero);
      }
      total := total + AspectExtent(target, s, horizontal);
    }
    assert images[..|images|] == images;
    r := Ok(total);
  }

  /** The size an image has after the optional compression. */
  function ScaledSize(img: Image, p: StitchParams): Size {
    Size(Scaled(img.width, p), Scaled(img.height, p))
  }

  /** Pillow refuses the compression resize of img. */
  predicate ScaleRefused(img: Image, p: StitchParams) {
    p.compressEnabled && ResizeRefused(ImageSize(img), ScaledSize(img, p))
  }

  /** An image of size s resized to the canvas's cross extent, its aspect ratio kept. */
  function AspectSize(s: Size, p: StitchParams, canvas: Size): (t: Size)
    requires Breadth(s, p.isHorizontal) != 0
    ensures Breadth(t, p.isHorizontal) == Breadth(canvas, p.isHorizontal)
  {
    var h := p.isHorizontal;
    Along(AspectExtent(Breadth(canvas, h), s, h), Breadth(canvas, h), h)
  }

  /** Flooring a quotient: the quotient times the divisor reaches the
      dividend, and one more would pass it. */
  lemma FloorDivBounds(a: int, b: int)
    requires b > 0
    ensures (a / b) * b <= a < (a / b + 1) * b
  {
  }

  /** The aspect resize gives the canvas's cross extent, and a main extent
      that keeps the image's proportions, rounded down: the ratio of main to
      cross extent is at most the image's, by less than one pixel of main extent. */
  lemma AspectSizeSpec(s: Size, p: StitchParams, canvas: Size)
    requires Breadth(s, p.isHorizontal) > 0
    ensures var h := p.isHorizontal;
            var t := AspectSize(s, p, canvas);
            Breadth(t, h) == Breadth(canvas, h) &&
            Length(t, h) * Breadth(s, h) <= Breadth(canvas, h) * Length(s, h) < (Length(t, h) + 1) * Breadth(s, h)
  {
    var h := p.isHorizontal;
    FloorDivBounds(Breadth(canvas, h) * Length(s, h), Breadth(s, h));
  }

  /** Pillow refuses the aspect resize of an image of size s. */
  predicate AspectRefused(s: Size, p: StitchParams, canvas: Size) {
    Breadth(s, p.isHorizontal) != 0 && ResizeRefused(s, AspectSize(s, p, canvas))
  }

  /** The size an image is pasted at: scaled first when compression is on;
      in the uniform modes then resized to the canvas's cross extent,
      keeping the scaled image's aspect ratio. Either resize can be refused,
      and the aspect ratio of an image left without cross extent divides by zero. */
  function PastedSize(img: Image, p: StitchParams, canvas: Size): Result<Size, Failure>
  {
    var h := p.isHorizontal;
    var s := ScaledSize(img, p);
    if p.compressEnabled && ResizeRefused(ImageSize(img), s) then Err(ZeroSide)
    else if Uniform(p) then
      if Breadth(s, h) == 0 then Err(DivisionByZero)
      else
        var t := AspectSize(s, p, canvas);
        if ResizeRefused(s, t) then Err(ZeroSide) else Ok(t)
    else Ok(s)
  }

  /** What PastedSize promises: a refused compression resize fails first;
      the only other failures are a refused resize and, in the uniform modes,
      the division by zero; outside the uniform modes the pasted size is the
      scaled size; in the uniform modes it fills the canvas's cross extent. */
  lemma PastedSizeSpec(img: Image, p: StitchParams, canvas: Size)
    ensures var r := PastedSize(img, p, canvas);
            (ScaleRefused(img, p) ==> r == Err(ZeroSide)) &&
            (r.Err? ==> r.error == ZeroSide || (r.error == DivisionByZero && Uniform(p))) &&
            // What gets pasted has at least one pixel a side, unless it is the image as it was.
            (r.Ok? ==> r.value == ImageSize(img) || (r.value.width >= 1 && r.value.height >= 1)) &&
            (!Uniform(p) ==> r == if ScaleRefused(img, p) then Err(ZeroSide) else Ok(ScaledSize(img, p))) &&
            (Uniform(p) && r.Ok? ==> Breadth(r.value, p.isHorizontal) == Breadth(canvas, p.isHorizontal)) &&
            // In the uniform modes the scaled image is resized to the canvas's cross extent, its aspect kept.
            (Uniform(p) && r.Ok? ==> Breadth(ScaledSize(img, p), p.isHorizontal) != 0 &&
                                     r.value == AspectSize(ScaledSize(img, p), p, canvas)) &&
            (Uniform(p) && !p.compressEnabled ==>
               (r.Ok? <==> Breadth(ImageSize(img), p.isHorizontal) != 0 && !AspectRefused(ImageSize(img), p, canvas)))
  {
  }

  /** Where along the cross axis an image is pasted: at the start in the
      uniform modes and for top (horizontal) or left (vertical) alignment,
      flush with the far edge for bottom or right alignment, centred
      (rounded down) for anything else, including left or right alignment
      of a horizontal stitch. */
  function CrossOffset(p: StitchParams, canvasCross: int, cross: int): (r: int)
    ensures Uniform(p) ==> r == 0
    ensures !Uniform(p) && p.alignMode == (if p.isHorizontal then AlignTop else AlignLeft) ==> r == 0
    ensures !Uniform(p) && p.alignMode == (if p.isHorizontal then AlignBottom else AlignRight) ==> r + cross == canvasCross
    // Centred: the space left before the image is at most the space after it, by under one pixel.
    ensures !Uniform(p) && p.alignMode != (if p.isHorizontal then AlignTop else AlignLeft) &&
            p.alignMode != (if p.isHorizontal then AlignBottom else AlignRight) ==>
              r <= canvasCross - cross - r <= r + 1
  {
    var h := p.isHorizontal;
    if Uniform(p) then 0
    else if p.alignMode == (if h then AlignTop else AlignLeft) then 0
    else if p.alignMode == (if h then AlignBottom else AlignRight) then canvasCross - cross
    else (canvasCross - cross) / 2
  }

  function Place(p: StitchParams, canvas: Size, offset: int, size: Size): (pl: Placement)
    ensures MainPos(pl, p.isHorizontal) == offset && pl.size == size
    ensures CrossPos(pl, p.isHorizontal) == CrossOffset(p, Breadth(canvas, p.isHorizontal), Breadth(size, p.isHorizontal))
  {
    if p.isHorizontal then Placement(offset, CrossOffset(p, canvas.height, size.height), size)
    else Placement(CrossOffset(p, canvas.width, size.width), offset, size)
  }

  /** How far along the main axis the placed images reach. */
  function MainExtent(ps: seq<Placement>, horizontal: bool): int {
    if ps == [] then 0 else MainExtent(ps[..|ps| - 1], horizontal) + Length(ps[|ps| - 1].size, horizontal)
  }

  /** Where _stitch_images pastes each image: image k at its pasted size,
      starting where the images before it end. */
  function Layout(images: seq<Image>, p: StitchParams, canvas: Size): (r: Result<seq<Placement>, Failure>)
    ensures r.Ok? <==> forall k :: 0 <= k < |images| ==> PastedSize(images[k], p, canvas).Ok?
    ensures r.Err? ==> exists k :: 0 <= k < |images| && PastedSize(images[k], p, canvas) == Err(r.error) &&
                                   forall j :: 0 <= j < k ==> PastedSize(images[j], p, canvas).Ok?
    ensures r.Ok? ==> |r.value| == |images|
  {
    if images == [] then Ok([])
    else
      var init := images[..|images| - 1];
      assert forall k :: 0 <= k < |init| ==> init[k] == images[k];
      match Layout(init, p, canvas)
      case Err(e) => Err(e)
      case Ok(ps) =>
        match PastedSize(images[|images| - 1], p, canvas)
        case Err(e) => Err(e)
        case Ok(size) =>
          Ok(ps + [Place(p, canvas, MainExtent(ps, p.isHorizontal), size)])
  }

  /** Image k is pasted at its pasted size, starting where the images before it end. */
  lemma {:induction false} LayoutPlaces(images: seq<Image>, p: StitchParams, canvas: Size)
    requires Layout(images, p, canvas).Ok?
    ensures var ps := Layout(images, p, canvas).value;
            forall k :: 0 <= k < |images| ==>
              ps[k] == Place(p, canvas, MainExtent(ps[..k], p.isHorizontal), PastedSize(images[k], p, canvas).value)
  {
    if images != [] {
      var init := images[..|images| - 1];
      assert forall k :: 0 <= k < |init| ==> init[k] == images[k];
      LayoutLast(images, p, canvas);
      LayoutPlaces(init, p, canvas);
      var ps := Layout(init, p, canvas).value;
      var r := Layout(images, p, canvas).value;
      forall k | 0 <= k < |images|
        ensures r[k] == Place(p, canvas, MainExtent(r[..k], p.isHorizontal), PastedSize(images[k], p, canvas).value)
      {
        if k < |ps| {
          assert r[k] == ps[k] && r[..k] == ps[..k] && images[k] == init[k];
        } else {
          assert r[..k] == ps;
        }
      }
    }
  }

  /** The last image is placed where the others end. */
  lemma LayoutLast(images: seq<Image>, p: StitchParams, canvas: Size)
    requires images != [] && Layout(images, p, canvas).Ok?
    ensures var init := Layout(images[..|images| - 1], p, canvas);
            init.Ok? && PastedSize(images[|images| - 1], p, canvas).Ok? &&
            Layout(images, p, canvas).value ==
              init.value + [Place(p, canvas, MainExtent(init.value, p.isHorizontal), PastedSize(images[|images| - 1], p, canvas).value)]
  {
  }

  lemma MainExtentSnoc(ps: seq<Placement>, pl: Placement, horizontal: bool)
    ensures MainExtent(ps + [pl], horizontal) == MainExtent(ps, horizontal) + Length(pl.size, horizontal)
  {
    assert (ps + [pl])[..|ps|] == ps;
  }

  /** Once a prefix of the images fails to lay out, the whole list fails the same way. */
  lemma {:induction false} LayoutErrStays(images: seq<Image>, p: StitchParams, canvas: Size, n: nat)
    requires n <= |images| && Layout(images[..n], p, canvas).Err?
    ensures Layout(images, p, canvas) == Layout(images[..n], p, canvas)
    decreases |images|
  {
    if n < |images| {
      var init := images[..|images| - 1];
      assert init[..n] == images[..n];
      LayoutErrStays(init, p, canvas, n);
    } else {
      assert images[..n] == images;
    }
  }

  /** Laying out one more image that has a pasted size appends its placement. */
  lemma LayoutGrows(images: seq<Image>, p: StitchParams, canvas: Size, i: nat, placed: seq<Placement>)
    requires i < |images| && Layout(images[..i], p, canvas) == Ok(placed)
    requires PastedSize(images[i], p, canvas).Ok?
    ensures var pl := Place(p, canvas, MainExtent(placed, p.isHorizontal), PastedSize(images[i], p, canvas).value);
            Layout(images[..i + 1], p, canvas) == Ok(placed + [pl]) &&
            MainExtent(placed + [pl], p.isHorizontal) == MainExtent(placed, p.isHorizontal) + Length(pl.size, p.isHorizontal)
  {
    assert images[..i + 1][..i] == images[..i];
    var pl := Place(p, canvas, MainExtent(placed, p.isHorizontal), PastedSize(images[i], p, canvas).value);
    MainExtentSnoc(placed, pl, p.isHorizontal);
  }

  /** An image without a pasted size, after images that all have one, fails the whole layout with its error. */
  lemma LayoutStopsAt(images: seq<Image>, p: StitchParams, canvas: Size, i: nat, placed: seq<Placement>)
    requires i < |images| && Layout(images[..i], p, canvas) == Ok(placed)
    requires PastedSize(images[i], p, canvas).Err?
    ensures Layout(images, p, canvas) == Err(PastedSize(images[i], p, canvas).error)
  {
    assert images[..i + 1][..i] == images[..i];
    assert Layout(images[..i + 1], p, canvas) == Err(PastedSize(images[i], p, canvas).error);
    LayoutErrStays(images, p, canvas, i + 1);
  }

  /** _stitch_images: the running offsets of the source, one placement per image. */
  method StitchImages(images: seq<Image>, p: StitchParams, canvas: Size) returns (r: Result<seq<Placement>, Failure>)
    ensures r == Layout(images, p, canvas)
  {
    var xOffset, yOffset := 0, 0;
    var placed: seq<Placement> := [];
    for i := 0 to |images|
      invariant Layout(images[..i], p, canvas) == Ok(placed)
      invariant p.isHorizontal ==> xOffset == MainExtent(placed, true) && yOffset == 0
      invariant !p.isHorizontal ==> yOffset == MainExtent(placed, false) && xOffset == 0
    {
      var pasted := PastedSize(images[i], p, canvas);
      if pasted.Err? {
        LayoutStopsAt(images, p, canvas, i, placed);
        return Err(pasted.error);
      }
      var size := pasted.value;
      LayoutGrows(images, p, canvas, i, placed);
      if p.isHorizontal {
        placed := placed + [Placement(xOffset, CrossOffset(p, canvas.height, size.height), size)];
        xOffset := xOffset + size.width;
      } else {
        placed := placed + [Placement(CrossOffset(p, canvas.width, size.width), yOffset, size)];
        yOffset := yOffset + size.height;
      }
    }
    assert images[..|images|] == images;
    r := Ok(placed);
  }

  /** Without the uniform modes the paste fails exactly when an image is
      scaled to nothing; otherwise every image fits across the canvas, and
      together they never reach past its main extent. They may fall short
      of it, since the canvas scales the sum while each image is scaled on
      its own. */
  lemma NonUniformWithinCanvas(images: seq<Image>, p: StitchParams)
    requires !Uniform(p) && images != []
    ensures Canvas(images, p).Ok?
    ensures var canvas := Canvas(images, p).value;
            (Layout(images, p, canvas).Ok? <==> forall k :: 0 <= k < |images| ==> !ScaleRefused(images[k], p)) &&
            (Layout(images, p, canvas).Ok? ==>
              var ps := Layout(images, p, canvas).value;
              (forall k :: 0 <= k < |ps| ==>
                 0 <= CrossPos(ps[k], p.isHorizontal) &&
                 CrossPos(ps[k], p.isHorizontal) + Breadth(ps[k].size, p.isHorizontal) <= Breadth(canvas, p.isHorizontal)) &&
              MainExtent(ps, p.isHorizontal) <= Length(canvas, p.isHorizontal))
  {
    var h := p.isHorizontal;
    var top := Max(Crosses(images, h));
    var canvas := Along(Scaled(MainSum(images, h), p), Scaled(top, p), h);
    assert Canvas(images, p) == Ok(canvas);
    if Layout(images, p, canvas).Ok? {
      ExtentWithinSum(images, p, canvas);
      var ps := Layout(images, p, canvas).value;
      LayoutPlaces(images, p, canvas);
      forall k | 0 <= k < |ps|
        ensures 0 <= CrossPos(ps[k], h) && CrossPos(ps[k], h) + Breadth(ps[k].size, h) <= Breadth(canvas, h)
      {
        var c := Breadth(ImageSize(images[k]), h);
        assert ps[k].size == PastedSize(images[k], p, canvas).value;
        assert Breadth(ps[k].size, h) == Scaled(c, p);
        assert c == Crosses(images, h)[k] <= top;
        ScaledMonotone(c, top, p);
        CrossOffsetFits(p, Scaled(top, p), Scaled(c, p));
      }
    }
  }

  /** Outside the uniform modes an image no wider across than the canvas is pasted inside it. */
  lemma CrossOffsetFits(p: StitchParams, canvasCross: int, cross: int)
    requires !Uniform(p) && 0 <= cross <= canvasCross
    ensures 0 <= CrossOffset(p, canvasCross, cross) && CrossOffset(p, canvasCross, cross) + cross <= canvasCross
  {
  }

  lemma {:induction false} ExtentWithinSum(images: seq<Image>, p: StitchParams, canvas: Size)
    requires !Uniform(p) && Layout(images, p, canvas).Ok?
    ensures 0 <= MainExtent(Layout(images, p, canvas).value, p.isHorizontal) <= Scaled(MainSum(images, p.isHorizontal), p)
  {
    var h := p.isHorizontal;
    if images == [] {
      assert Scaled(0, p) == 0;
    } else {
      var init := images[..|images| - 1];
      var img := images[|images| - 1];
      var last := Length(ImageSize(img), h);
      LayoutLast(images, p, canvas);
      ExtentWithinSum(init, p, canvas);
      var ps := Layout(init, p, canvas).value;
      assert MainExtent(Layout(images, p, canvas).value, h) == MainExtent(ps, h) + Scaled(last, p) by {
        var size := PastedSize(img, p, canvas).value;
        MainExtentSnoc(ps, Place(p, canvas, MainExtent(ps, h), size), h);
      }
      assert 0 <= Scaled(last, p) && Scaled(MainSum(init, h), p) + Scaled(last, p) <= Scaled(MainSum(images, h), p) by {
        ScaledMonotone(0, last, p);
        SumNonNegative(init, h);
        assert MainSum(images, h) == MainSum(init, h) + last;
        ScaledAdd(MainSum(init, h), last, MainSum(images, h), p);
      }
    }
  }

  lemma SumNonNegative(images: seq<Image>, horizontal: bool)
    ensures MainSum(images, horizontal) >= 0
  {
  }

  /** In the uniform modes without compression the paste fails exactly
      when some image would be resized to nothing; otherwise the images
      exactly fill the canvas: each spans its whole cross extent from the
      start, and their main extents add up to the canvas's. */
  lemma UniformExactWithoutCompression(images: seq<Image>, p: StitchParams)
    requires Uniform(p) && !p.compressEnabled && Canvas(images, p).Ok?
    ensures var canvas := Canvas(images, p).value;
            (Layout(images, p, canvas).Ok? <==>
               forall k :: 0 <= k < |images| ==> !AspectRefused(ImageSize(images[k]), p, canvas)) &&
            (Layout(images, p, canvas).Ok? ==>
              var ps := Layout(images, p, canvas).value;
              (forall k :: 0 <= k < |ps| ==>
                 CrossPos(ps[k], p.isHorizontal) == 0 && Breadth(ps[k].size, p.isHorizontal) == Breadth(canvas, p.isHorizontal)) &&
              MainExtent(ps, p.isHorizontal) == Length(canvas, p.isHorizontal))
  {
    var canvas := Canvas(images, p).value;
    UniformPastes(images, p, canvas);
    if Layout(images, p, canvas).Ok? {
      UniformExtent(images, p, canvas);
      LayoutPlaces(images, p, canvas);
    }
  }

  lemma UniformPastes(images: seq<Image>, p: StitchParams, canvas: Size)
    requires Uniform(p) && !p.compressEnabled && Canvas(images, p) == Ok(canvas)
    ensures Layout(images, p, canvas).Ok? <==> forall k :: 0 <= k < |images| ==> !AspectRefused(ImageSize(images[k]), p, canvas)
  {
    forall k | 0 <= k < |images|
      ensures PastedSize(images[k], p, canvas).Ok? <==> !AspectRefused(ImageSize(images[k]), p, canvas)
    {
      assert Breadth(ImageSize(images[k]), p.isHorizontal) != 0;
    }
  }

  lemma {:induction false} UniformExtent(images: seq<Image>, p: StitchParams, canvas: Size)
    requires Uniform(p) && !p.compressEnabled
    requires UniformMain(Breadth(canvas, p.isHorizontal), images, p.isHorizontal).Ok?
    requires Layout(images, p, canvas).Ok?
    ensures MainExtent(Layout(images, p, canvas).value, p.isHorizontal) == UniformMain(Breadth(canvas, p.isHorizontal), images, p.isHorizontal).value
  {
    var h := p.isHorizontal;
    if images != [] {
      var init := images[..|images| - 1];
      assert forall k :: 0 <= k < |init| ==> init[k] == images[k];
      LayoutLast(images, p, canvas);
      UniformExtent(init, p, canvas);
      var ps := Layout(init, p, canvas).value;
      var r := Layout(images, p, canvas).value;
      assert r[..|r| - 1] == ps;
    }
  }

  /** Shrinking next to a small image can leave a tall thin one without
      width: a 1x100 image resized to height 1 would be 0 pixels wide, and
      the stitch fails although the canvas was sized. */
  lemma ShrinkThinImageFails()
    ensures var images := [Image(1, 1, Some("PNG"), "RGB", false), Image(1, 100, Some("PNG"), "RGB", false)];
            var p := StitchParams(false, 100, true, Shrink);
            Canvas(images, p) == Ok(Size(1, 1)) &&
            Layout(images, p, Size(1, 1)) == Err(ZeroSide)
  {
    var images := [Image(1, 1, Some("PNG"), "RGB", false), Image(1, 100, Some("PNG"), "RGB", false)];
    var p := StitchParams(false, 100, true, Shrink);
    assert Crosses(images, true) == [1, 100];
    assert Min([1, 100]) == 1;
    assert images[..1] == [images[0]] && images[..1][..0] == [];
    assert UniformMain(1, images[..1], true) == Ok(1);
    assert UniformMain(1, images, true) == Ok(1);
    assert PastedSize(images[0], p, Size(1, 1)).Ok?;
    assert PastedSize(images[1], p, Size(1, 1)) == Err(ZeroSide);
    assert Layout(images[..1], p, Size(1, 1)).Ok?;
  }

  /** A uniform stitch with compression can paste an image past the canvas:
      a 9x5 image enlarged at 50% gets a 3x2 canvas but is pasted 4x2,
      because the canvas uses the original aspect ratio and the paste the
      scaled one. */
  lemma UniformCompressedOverflow()
    ensures var images := [Image(9, 5, Some("PNG"), "RGB", false)];
            var p := StitchParams(true, 50, true, Enlarge);
            Canvas(images, p) == Ok(Size(3, 2)) &&
            Layout(images, p, Size(3, 2)) == Ok([Placement(0, 0, Size(4, 2))])
  {
    var images := [Image(9, 5, Some("PNG"), "RGB", false)];
    var p := StitchParams(true, 50, true, Enlarge);
    assert Crosses(images, true) == [5];
    assert images[..0] == [];
    assert Canvas(images, p) == Ok(Size(3, 2));
    assert PastedSize(images[0], p, Size(3, 2)) == Ok(Size(4, 2));
    assert Layout(images[..0], p, Size(3, 2)) == Ok([]);
    assert [] + [Placement(0, 0, Size(4, 2))] == [Placement(0, 0, Size(4, 2))];
  }

  /** Left alignment does not apply to a horizontal stitch: the shorter image is centred. */
  lemma LeftAlignCentresHorizontalStitch()
    ensures var images := [Image(10, 4, Some("PNG"), "RGB", false), Image(10, 8, Some("PNG"), "RGB", false)];
            var p := StitchParams(false, 80, true, AlignLeft);
            Canvas(images, p) == Ok(Size(20, 8)) &&
            Layout(images, p, Size(20, 8)) == Ok([Placement(0, 2, Size(10, 4)), Placement(10, 0, Size(10, 8))])
  {
    var images := [Image(10, 4, Some("PNG"), "RGB", false), Image(10, 8, Some("PNG"), "RGB", false)];
    var p := StitchParams(false, 80, true, AlignLeft);
    var canvas := Size(20, 8);
    assert Crosses(images, true) == [4, 8];
    assert images[..1] == [images[0]] && images[..1][..0] == [];
    assert AlignLeft != AlignTop && AlignLeft != AlignBottom && !Uniform(p);
    assert MainSum(images[..1], true) == 10;
    assert MainSum(images, true) == 20;
    assert CrossOffset(p, 8, 4) == 2 && CrossOffset(p, 8, 8) == 0;
    var first := [Placement(0, 2, Size(10, 4))];
    assert Layout(images[..1], p, canvas) == Ok(first) by {
      assert Layout(images[..1][..0], p, canvas) == Ok([]);
      assert PastedSize(images[0], p, canvas) == Ok(Size(10, 4));
      assert Place(p, canvas, 0, Size(10, 4)) == first[0];
      assert [] + [first[0]] == first;
    }
    assert MainExtent(first, true) == 10 by { assert first[..0] == []; }
    assert PastedSize(images[1], p, canvas) == Ok(Size(10, 8));
    assert Place(p, canvas, 10, Size(10, 8)) == Placement(10, 0, Size(10, 8));
    LayoutLast(images, p, canvas);
    assert Layout(images, p, canvas).value == first + [Placement(10, 0, Size(10, 8))];
    assert first + [Placement(10, 0, Size(10, 8))] == [Placement(0, 2, Size(10, 4)), Placement(10, 0, Size(10, 8))];
  }

  /** The detected formats of the loaded images, as a set. */
  function FormatsOf(images: seq<Image>): set<Option<string>> {
    set k | 0 <= k < |images| :: images[k].format
  }

  /** The output format: JPEG when the images were detected as different
      formats, their one format otherwise; an empty list has none to take. */
  function StitchFormat(images: seq<Image>): (r: Result<Option<string>, Failure>)
    ensures r.Err? <==> images == []
    ensures r.Err? ==> r.error == IndexOutOfRange
  {
    var formats := FormatsOf(images);
    if |formats| > 1 then Ok(Some("JPEG"))
    else if images == [] then Err(IndexOutOfRange)
    else
      assert images[0].format in formats;
      Ok(images[0].format)
  }

  /** The output format is the first image's when all share it, and JPEG as soon as two differ. */
  lemma StitchFormatSharedOrJpeg(images: seq<Image>)
    requires images != []
    ensures StitchFormat(images) ==
              Ok(if forall k :: 0 <= k < |images| ==> images[k].format == images[0].format then images[0].format else Some("JPEG"))
  {
    var formats := FormatsOf(images);
    var first := images[0].format;
    assert first in formats;
    if forall k :: 0 <= k < |images| ==> images[k].format == first {
      assert formats == {first};
    } else {
      var k :| 0 <= k < |images| && images[k].format != first;
      assert images[k].format in formats - {first};
      assert |formats - {first}| >= 1;
      assert |formats| == |formats - {first}| + 1;
    }
  }

  predicate Transparent(img: Image) {
    img.mode == "RGBA" || img.mode == "LA" || (img.mode == "P" && img.hasTransparencyInfo)
  }

  /** Transparency is looked for only when the images share one format. */
  predicate HasTransparency(images: seq<Image>) {
    |FormatsOf(images)| <= 1 && exists k :: 0 <= k < |images| && Transparent(images[k])
  }

  /** The canvas is transparent RGBA only for a PNG result with some transparent input, white RGB otherwise. */
  function CanvasMode(images: seq<Image>, format: Option<string>): string {
    if HasTransparency(images) && format == Some("PNG") then "RGBA" else "RGB"
  }

  /** A stitch keeps transparency exactly when every image was detected as
      PNG and one of them has transparency. */
  lemma TransparentOnlyForPng(images: seq<Image>)
    requires images != []
    ensures CanvasMode(images, StitchFormat(images).value) == "RGBA" <==>
              (forall k :: 0 <= k < |images| ==> images[k].format == Some("PNG")) &&
              (exists k :: 0 <= k < |images| && Transparent(images[k]))
  {
    StitchFormatSharedOrJpeg(images);
    if forall k :: 0 <= k < |images| ==> images[k].format == images[0].format {
      assert FormatsOf(images) == {images[0].format};
    }
  }

  /** The outcome of a stitch: the saved path, or None when the operator
      declined to overwrite; the canvas, its mode, where each image went
      and how the canvas is encoded. */
  datatype StitchOutput = StitchOutput(path: Option<string>, canvas: Size, canvasMode: string,
                                       placements: seq<Placement>, save: StitchSave)

  /** The output directory: the one given, else the first input's directory. */
  function ResolvedDir(files: seq<string>, dir: Option<string>): string
    requires Truthy(dir) || files != []
  {
    if Truthy(dir) then dir.value else Dirname(files[0])
  }

  /** The output name: the one given, else "{first stem}_stitched_{timestamp}". */
  function ResolvedName(files: seq<string>, name: Option<string>, timestamp: string): string
    requires Truthy(name) || files != []
  {
    if Truthy(name) then name.value else Stem(files[0]) + "_stitched_" + timestamp
  }

  function StitchPath(files: seq<string>, dir: Option<string>, name: Option<string>, format: Option<string>,
                      timestamp: string): string
    requires files != [] || (Truthy(dir) && Truthy(name))
  {
    Join(ResolvedDir(files, dir), ResolvedName(files, name, timestamp) + StitchExtension(format))
  }

  /** StitchThread.run from start to end. */
  function StitchOutcome(files: seq<string>, p: StitchParams, dir: Option<string>, name: Option<string>,
                         load: string -> Option<Image>, timestamp: string, existing: set<string>, answer: bool)
    : Result<StitchOutput, Failure>
  {
    match LoadAll(files, load)
    case Err(e) => Err(e)
    case Ok(images) =>
      match StitchFormat(images)
      case Err(e) => Err(e)
      case Ok(format) =>
        match Canvas(images, p)
        case Err(e) => Err(e)
        case Ok(canvas) =>
          match Layout(images, p, canvas)
          case Err(e) => Err(e)
          case Ok(placements) =>
            var path := StitchPath(files, dir, name, format, timestamp);
            Ok(StitchOutput(if Proceeds(path, existing, answer) then Some(path) else None,
                            canvas, CanvasMode(images, format), placements, StitchSaveFor(format)))
  }

  /** A stitch job; the save step fills in its missing directory and name. */
  class StitchJob {
    const imageFiles: seq<string>
    const params: StitchParams
    var outputDir: Option<string>
    var outputName: Option<string>

    constructor(imageFiles: seq<string>, params: StitchParams, outputDir: Option<string>, outputName: Option<string>)
      ensures this.imageFiles == imageFiles && this.params == params
      ensures this.outputDir == outputDir && this.outputName == outputName
    {
      this.imageFiles := imageFiles;
      this.params := params;
      this.outputDir := outputDir;
      this.outputName := outputName;
    }

    /** _save_result: complete the directory and name (they stay on the job
        even when the save is then declined) and save unless an existing
        file may not be overwritten. */
    method SaveResult(format: Option<string>, timestamp: string, existing: set<string>, answer: bool)
      returns (saved: Option<string>)
      requires imageFiles != [] || (Truthy(outputDir) && Truthy(outputName))
      modifies this
      ensures outputDir == Some(ResolvedDir(imageFiles, old(outputDir)))
      ensures outputName == Some(ResolvedName(imageFiles, old(outputName), timestamp))
      ensures var path := StitchPath(imageFiles, old(outputDir), old(outputName), format, timestamp);
              saved == if Proceeds(path, existing, answer) then Some(path) else None
    {
      if !Truthy(outputDir) {
        outputDir := Some(Dirname(imageFiles[0]));
      }
      if !Truthy(outputName) {
        outputName := Some(Stem(imageFiles[0]) + "_stitched_" + timestamp);
      }
      var path := Join(outputDir.value, outputName.value + StitchExtension(format));
      if path in existing && !answer {
        return None;
      }
      return Some(path);
    }

    /** StitchThread.run: load, choose the format, size the canvas, paste, save. */
    method Run(load: string -> Option<Image>, timestamp: string, existing: set<string>, answer: bool)
      returns (outcome: Result<StitchOutput, Failure>, after: set<string>)
      modifies this
      ensures outcome == StitchOutcome(imageFiles, params, old(outputDir), old(outputName), load, timestamp, existing, answer)
      ensures after == if outcome.Ok? && outcome.value.path.Some? then existing + {outcome.value.path.value} else existing
      ensures outcome.Ok? ==> outputDir == Some(ResolvedDir(imageFiles, old(outputDir))) &&
                              outputName == Some(ResolvedName(imageFiles, old(outputName), timestamp))
      ensures outcome.Err? ==> outputDir == old(outputDir) && outputName == old(outputName)
    {
      after := existing;
      var loaded := LoadAll(imageFiles, load);
      if loaded.Err? {
        return Err(loaded.error), after;
      }
      var images := loaded.value;
      var format := StitchFormat(images);
      if format.Err? {
        return Err(format.error), after;
      }
      var canvas := CalculateCanvasSize(images, params);
      if canvas.Err? {
        return Err(canvas.error), after;
      }
      var placements := StitchImages(images, params, canvas.value);
      if placements.Err? {
        return Err(placements.error), after;
      }
      var saved := SaveResult(format.value, timestamp, existing, answer);
      if saved.Some? {
        after := existing + {saved.value};
      }
      outcome := Ok(StitchOutput(saved, canvas.value, CanvasMode(images, format.value), placements.value,
                                 StitchSaveFor(format.value)));
    }
  }
}
