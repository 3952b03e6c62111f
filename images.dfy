/** What the jobs know about an image file once it is opened, how they fail,
    and the helpers they share (reading every input, extrema, size strings). */
module Images {
  import opened Wrappers
  import opened Text
  import opened Paths

  /** An opened image: its size, the container the decoder detected (None
      when it reports none), its pixel mode ("RGB", "RGBA", "LA", "P", ...)
      and whether its metadata carries a transparency entry. */
  datatype Image = Image(width: nat, height: nat, format: Option<string>, mode: string, hasTransparencyInfo: bool)

  /** Why a job ends in its error state. */
  datatype Failure =
    | Unreadable(path: string)  // the image cannot be opened
    | EmptySequence             // max() or min() over no images
    | IndexOutOfRange           // indexing an empty collection
    | DivisionByZero            // a zero split count or a zero side in an aspect ratio
    | ZeroSide                  // a resize asked for a side below one pixel

  /** A width and height as the jobs compute them (a custom size can be anything). */
  datatype Size = Size(width: int, height: int)

  function ImageSize(img: Image): Size {
    Size(img.width, img.height)
  }

  /** Pillow's Image.resize hands back a copy when the size does not change
      and otherwise refuses (ValueError) a side below one pixel. */
  predicate ResizeRefused(from: Size, to: Size) {
    to != from && (to.width < 1 || to.height < 1)
  }

  /** A crop box: left and top included, right and bottom excluded. */
  datatype Box = Box(left: int, top: int, right: int, bottom: int)

  /** The size of the image a crop to `b` produces. */
  function BoxSize(b: Box): Size {
    Size(b.right - b.left, b.bottom - b.top)
  }

  /** Opening every file in order: the images, or the first file that cannot be opened. */
  function LoadAll(files: seq<string>, load: string -> Option<Image>): (r: Result<seq<Image>, Failure>)
    ensures r.Ok? <==> forall i :: 0 <= i < |files| ==> load(files[i]).Some?
    ensures r.Ok? ==> |r.value| == |files| && forall i :: 0 <= i < |files| ==> load(files[i]) == Some(r.value[i])
    ensures r.Err? ==> exists i :: 0 <= i < |files| && load(files[i]).None? && r.error == Unreadable(files[i]) &&
                                   forall j :: 0 <= j < i ==> load(files[j]).Some?
  {
    if files == [] then Ok([])
    else match load(files[0])
      case None => Err(Unreadable(files[0]))
      case Some(img) =>
        var rest := LoadAll(files[1..], load);
        if rest.Err? then
          assert forall i :: 1 <= i < |files| ==> files[i] == files[1..][i - 1];
          Err(rest.error)
        else Ok([img] + rest.value)
  }

  /** Opening files one by one until the first failure produces exactly LoadAll. */
  lemma LoadAllFirstFailure(files: seq<string>, load: string -> Option<Image>, i: nat)
    requires i < |files| && load(files[i]).None?
    requires forall j :: 0 <= j < i ==> load(files[j]).Some?
    ensures LoadAll(files, load) == Err(Unreadable(files[i]))
  {
    var r := LoadAll(files, load);
    var k :| 0 <= k < |files| && load(files[k]).None? && r.error == Unreadable(files[k]) &&
             forall j :: 0 <= j < k ==> load(files[j]).Some?;
    assert k == i;
  }

  /** The format the jobs take as original: the detected one, or else the
      file's extension without its dot, upper-cased. */
  function OriginalFormat(img: Image, path: string): string {
    if Truthy(img.format) then img.format.value
    else var ext := Extension(path); if ext == [] then [] else Upper(ext[1..])
  }

  /** The detected format wins when there is one; otherwise the result is
      the extension after its dot with lower-case letters raised, and empty
      for a file without an extension. */
  lemma OriginalFormatSpec(img: Image, path: string)
    ensures var r := OriginalFormat(img, path);
            (Truthy(img.format) ==> r == img.format.value) &&
            (!Truthy(img.format) && Extension(path) == [] ==> r == []) &&
            (!Truthy(img.format) && Extension(path) != [] ==>
              |r| == |Extension(path)| - 1 && Lower(r) == Lower(Extension(path)[1..]) &&
              forall k :: 0 <= k < |r| ==> !('a' <= r[k] <= 'z') && r[k] != '.' && r[k] != '/')
  {
    LowerUpperFormat(Extension(path));
    ExtensionShape(path);
  }

  lemma LowerUpperFormat(ext: string)
    ensures ext != [] ==> Lower(Upper(ext[1..])) == Lower(ext[1..])
  {
    if ext != [] {
      LowerUpper(ext[1..]);
    }
  }

  /** A decoder-less file falls back to its extension: "photo.jpeg" reads as "JPEG". */
  lemma OriginalFormatExamples(img: Image)
    requires img.format == None
    ensures OriginalFormat(img, "d/photo.jpeg") == "JPEG"
    ensures OriginalFormat(img.(format := Some("PNG")), "d/photo.jpeg") == "PNG"
    ensures OriginalFormat(img.(format := Some("")), "d/photo") == ""
  {
    var p := "d/photo.jpeg";
    LastIndexIs(p, '/', 1);
    LastIndexIs(p, '.', 7);
    assert HasNonDot(p, 2, 7) by { assert p[2] != '.'; }
    assert Extension(p) == ".jpeg" by { assert p[7..] == ".jpeg"; }
    assert Upper("jpeg") == "JPEG";
    LastIndexIs("d/photo", '.', -1);
  }

  /** "{w}x{h}", the size strings of the result records. */
  function SizeText(w: int, h: int): (s: string)
    ensures 'x' in s
  {
    IntToString(w) + "x" + IntToString(h)
  }

  /** Two records with the same size string describe the same size: the
      numbers carry no 'x', so the separator is found again. */
  lemma SizeTextInjective(w: int, h: int, w': int, h': int)
    ensures SizeText(w, h) == SizeText(w', h') ==> w == w' && h == h'
  {
    if SizeText(w, h) == SizeText(w', h') {
      IntToStringChars(h);
      IntToStringChars(h');
      SplitAtSeparator(IntToString(w), IntToString(h), IntToString(w'), IntToString(h'), 'x');
      IntToStringInjective(w, w');
      IntToStringInjective(h, h');
    }
  }

  /** A separator that occurs in neither tail marks where the head ends. */
  lemma SplitAtSeparator(a: string, b: string, c: string, d: string, sep: char)
    requires sep !in b && sep !in d
    requires a + [sep] + b == c + [sep] + d
    ensures a == c && b == d
  {
    var s := a + [sep] + b;
    LastIndexSkips(a + [sep], b, sep);
    LastIndexSkips(c + [sep], d, sep);
    assert (a + [sep]) == s[..|a| + 1] && (c + [sep]) == s[..|c| + 1];
    assert |a| == |c|;
    assert a == s[..|a|] == c;
    assert b == s[|a| + 1..] == d;
  }

  /** A number written after the last '_' of a name, before a suffix
      without '_', can be read back, and so can what precedes it. */
  lemma NumberedTail(a1: string, m1: nat, a2: string, m2: nat, ext: string)
    requires '_' !in ext
    requires a1 + "_" + NatToString(m1) + ext == a2 + "_" + NatToString(m2) + ext
    ensures a1 == a2 && m1 == m2
  {
    var t1, t2 := NatToString(m1) + ext, NatToString(m2) + ext;
    assert '_' !in t1 && '_' !in t2 by {
      assert forall k :: 0 <= k < |NatToString(m1)| ==> t1[k] == NatToString(m1)[k];
      assert forall k :: 0 <= k < |NatToString(m2)| ==> t2[k] == NatToString(m2)[k];
    }
    assert a1 + ['_'] + t1 == a1 + "_" + NatToString(m1) + ext;
    assert a2 + ['_'] + t2 == a2 + "_" + NatToString(m2) + ext;
    SplitAtSeparator(a1, t1, a2, t2, '_');
    assert NatToString(m1) == t1[..|t1| - |ext|] == NatToString(m2);
    NatToStringInjective(m1, m2);
  }

  /** Two relative names that end in "_{number}{ext}", joined onto one
      folder, give the same path only when the names agree on the number
      and on what precedes it. */
  lemma NumberedJoinCancel(folder: string, h1: string, m1: nat, h2: string, m2: nat, ext: string)
    requires h1 != [] && h1[0] != '/' && h2 != [] && h2[0] != '/' && '_' !in ext
    requires Join(folder, h1 + "_" + NatToString(m1) + ext) == Join(folder, h2 + "_" + NatToString(m2) + ext)
    ensures h1 == h2 && m1 == m2
  {
    StartKept(h1, "_");
    StartKept(h1 + "_", NatToString(m1));
    StartKept(h1 + "_" + NatToString(m1), ext);
    StartKept(h2, "_");
    StartKept(h2 + "_", NatToString(m2));
    StartKept(h2 + "_" + NatToString(m2), ext);
    JoinCancel(folder, h1 + "_" + NatToString(m1) + ext, h2 + "_" + NatToString(m2) + ext);
    NumberedTail(h1, m1, h2, m2, ext);
  }

  /** The same for names "{x}{t}_{number}{ext}" that start with a relative prefix x. */
  lemma TaggedJoinCancel(folder: string, x: string, t1: string, m1: nat, t2: string, m2: nat, ext: string)
    requires x != [] && x[0] != '/' && '_' !in ext
    requires Join(folder, x + t1 + "_" + NatToString(m1) + ext) == Join(folder, x + t2 + "_" + NatToString(m2) + ext)
    ensures t1 == t2 && m1 == m2
  {
    StartKept(x, t1);
    StartKept(x, t2);
    NumberedJoinCancel(folder, x + t1, m1, x + t2, m2, ext);
    assert t1 == (x + t1)[|x|..] && t2 == (x + t2)[|x|..];
  }

  predicate IsMax(s: seq<int>, m: int) {
    m in s && forall k :: 0 <= k < |s| ==> s[k] <= m
  }

  predicate IsMin(s: seq<int>, m: int) {
    m in s && forall k :: 0 <= k < |s| ==> m <= s[k]
  }

  /** Python's max() of a non-empty sequence. */
  function Max(s: seq<int>): (m: int)
    requires s != []
    ensures IsMax(s, m)
  {
    if |s| == 1 then s[0]
    else var rest := Max(s[1..]); if s[0] >= rest then s[0] else rest
  }

  /** Python's min() of a non-empty sequence. */
  function Min(s: seq<int>): (m: int)
    requires s != []
    ensures IsMin(s, m)
  {
    if |s| == 1 then s[0]
    else var rest := Min(s[1..]); if s[0] <= rest then s[0] else rest
  }

  function Widths(images: seq<Image>): (ws: seq<int>)
    ensures |ws| == |images| && forall k :: 0 <= k < |images| ==> ws[k] == images[k].width
  {
    seq(|images|, k requires 0 <= k < |images| => images[k].width)
  }

  function Heights(images: seq<Image>): (hs: seq<int>)
    ensures |hs| == |images| && forall k :: 0 <= k < |images| ==> hs[k] == images[k].height
  {
    seq(|images|, k requires 0 <= k < |images| => images[k].height)
  }
}
