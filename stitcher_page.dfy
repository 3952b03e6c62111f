/** The ordering rules of the stitching page's list: dropping files onto the
    page, the code-point order used to sort it, strings as Python compares them. */
module Ordering {
  /** Python's `a <= b` on strings: code point by code point, a proper prefix first. */
  predicate StrLe(a: string, b: string) {
    if a == [] then true
    else if b == [] then false
    else if a[0] != b[0] then a[0] < b[0]
    else StrLe(a[1..], b[1..])
  }

  lemma {:induction false} StrLeReflexive(a: string)
    ensures StrLe(a, a)
  {
    if a != [] {
      StrLeReflexive(a[1..]);
    }
  }

  lemma {:induction false} StrLeTotal(a: string, b: string)
    ensures StrLe(a, b) || StrLe(b, a)
  {
    if a != [] && b != [] && a[0] == b[0] {
      StrLeTotal(a[1..], b[1..]);
    }
  }

  lemma {:induction false} StrLeAntisymmetric(a: string, b: string)
    requires StrLe(a, b) && StrLe(b, a)
    ensures a == b
  {
    if a != [] && b != [] {
      StrLeAntisymmetric(a[1..], b[1..]);
      assert a == [a[0]] + a[1..] && b == [b[0]] + b[1..];
    }
  }

  lemma {:induction false} StrLeTransitive(a: string, b: string, c: string)
    requires StrLe(a, b) && StrLe(b, c)
    ensures StrLe(a, c)
  {
    if a != [] && b != [] && c != [] && a[0] == b[0] && b[0] == c[0] {
      StrLeTransitive(a[1..], b[1..], c[1..]);
    }
  }

  /** Python's code-point order on two concrete names. */
  lemma StrLeExamples()
    ensures StrLe("a.png", "b.png") && !StrLe("b.png", "a.png")
    ensures StrLe("B.png", "a.png") && !StrLe("a.png", "B.png")
    ensures StrLe("img", "img2")
  {
  }

  predicate Sorted(s: seq<string>) {
    forall i, j :: 0 <= i < j < |s| ==> StrLe(s[i], s[j])
  }

  /** x inserted into s before the first entry it does not follow. */
  function Insert(x: string, s: seq<string>): (r: seq<string>)
    ensures multiset(r) == multiset(s) + multiset{x}
  {
    if s == [] then [x]
    else if StrLe(x, s[0]) then [x] + s
    else
      assert s == [s[0]] + s[1..];
      [s[0]] + Insert(x, s[1..])
  }

  lemma {:induction false} InsertSorted(x: string, s: seq<string>)
    requires Sorted(s)
    ensures Sorted(Insert(x, s))
  {
    if s != [] {
      if StrLe(x, s[0]) {
        var r := [x] + s;
        forall i, j | 0 <= i < j < |r|
          ensures StrLe(r[i], r[j])
        {
          if i == 0 && j > 1 {
            StrLeTransitive(x, s[0], s[j - 1]);
          }
        }
      } else {
        StrLeTotal(x, s[0]);
        InsertSorted(x, s[1..]);
        var rest := Insert(x, s[1..]);
        var r := [s[0]] + rest;
        forall i, j | 0 <= i < j < |r|
          ensures StrLe(r[i], r[j])
        {
          if i == 0 {
            assert r[j] in multiset(rest);
            assert r[j] in multiset(s[1..]) + multiset{x};
            if r[j] != x {
              var k :| 0 <= k < |s[1..]| && s[1..][k] == r[j];
              assert StrLe(s[0], s[k + 1]);
            }
          }
        }
      }
    }
  }

  /** The list's sort: a reference insertion sort. */
  function Sort(s: seq<string>): (r: seq<string>)
    ensures multiset(r) == multiset(s)
    ensures Sorted(r)
  {
    if s == [] then []
    else
      assert s == [s[0]] + s[1..];
      var rest := Sort(s[1..]);
      InsertSorted(s[0], rest);
      Insert(s[0], rest)
  }

  /** The first entry of a sorted list comes before every entry. */
  lemma HeadFirst(a: seq<string>, x: string)
    requires Sorted(a) && x in multiset(a)
    ensures StrLe(a[0], x)
  {
    var i :| 0 <= i < |a| && a[i] == x;
    if i == 0 {
      StrLeReflexive(x);
    }
  }

  lemma Rest(a: seq<string>)
    requires a != []
    ensures a == [a[0]] + a[1..] && multiset(a[1..]) == multiset(a) - multiset{a[0]}
  {
    assert a == [a[0]] + a[1..];
  }

  lemma SortedRest(a: seq<string>)
    requires a != [] && Sorted(a)
    ensures Sorted(a[1..])
  {
  }

  /** A sorted arrangement of a collection of names is unique: whatever order
      the names were in before, the sorted list is the same. */
  lemma {:induction false} SortedUnique(a: seq<string>, b: seq<string>)
    requires Sorted(a) && Sorted(b) && multiset(a) == multiset(b)
    ensures a == b
  {
    if a != [] && b != [] {
      HeadFirst(a, b[0]);
      HeadFirst(b, a[0]);
      StrLeAntisymmetric(a[0], b[0]);
      Rest(a);
      Rest(b);
      SortedRest(a);
      SortedRest(b);
      SortedUnique(a[1..], b[1..]);
    } else {
      assert |a| == |multiset(a)| && |b| == |multiset(b)|;
    }
  }

  /** Sorting any rearrangement gives the same list. */
  lemma SortIgnoresOrder(s: seq<string>, t: seq<string>)
    requires multiset(s) == multiset(t)
    ensures Sort(s) == Sort(t)
  {
    SortedUnique(Sort(s), Sort(t));
  }
}

/** The stitching page (ImageStitcherPage): the list of images to stitch and
    the operations on it. */
module StitcherPage {
  import opened Wrappers
  import opened Text
  import opened Paths
  import opened Ordering
  import opened Stitch

  /** The extensions the page accepts, compared in lower case. */
  const ImageExtensions: set<string> := {".png", ".jpg", ".jpeg", ".bmp", ".webp"}

  const Ready := "就绪"

  /** A dropped path is kept when it is a regular file with an image extension. */
  predicate Accepted(file: string, isFile: string -> bool) {
    isFile(file) && Lower(Extension(file)) in ImageExtensions
  }

  /** The accepted paths among those dropped, in drop order. */
  function AcceptedFiles(files: seq<string>, isFile: string -> bool): (r: seq<string>)
    ensures |r| <= |files|
    ensures forall f :: f in r <==> f in files && Accepted(f, isFile)
  {
    if files == [] then []
    else
      var last := files[|files| - 1];
      assert files == files[..|files| - 1] + [last];
      AcceptedFiles(files[..|files| - 1], isFile) + if Accepted(last, isFile) then [last] else []
  }

  /** Every accepted file is kept as often as it was dropped, so a file
      dropped twice is listed, and counted, twice. */
  lemma {:induction false} AcceptedFilesCounts(files: seq<string>, isFile: string -> bool)
    ensures forall f :: multiset(AcceptedFiles(files, isFile))[f] == if Accepted(f, isFile) then multiset(files)[f] else 0
  {
    if files != [] {
      var init, last := files[..|files| - 1], files[|files| - 1];
      AcceptedFilesCounts(init, isFile);
      assert files == init + [last];
      assert multiset(files) == multiset(init) + multiset{last};
    }
  }

  /** s without entry i (list.pop(i)). */
  function RemoveAt(s: seq<string>, i: nat): (r: seq<string>)
    requires i < |s|
    ensures |r| == |s| - 1
    ensures forall k :: 0 <= k < i ==> r[k] == s[k]
    ensures forall k :: i <= k < |r| ==> r[k] == s[k + 1]
    ensures multiset(r) + multiset{s[i]} == multiset(s)
  {
    assert s == s[..i] + [s[i]] + s[i + 1..];
    s[..i] + s[i + 1..]
  }

  /** s with x placed at index i (list.insert(i, x)). */
  function InsertAt(s: seq<string>, i: nat, x: string): (r: seq<string>)
    requires i <= |s|
    ensures |r| == |s| + 1 && r[i] == x
    ensures forall k :: 0 <= k < i ==> r[k] == s[k]
    ensures forall k :: i < k < |r| ==> r[k] == s[k - 1]
    ensures multiset(r) == multiset(s) + multiset{x}
  {
    assert s == s[..i] + s[i..];
    s[..i] + [x] + s[i..]
  }

  /** Taking the entry at i out and putting it back at i changes nothing. */
  lemma InsertAtRemoveAt(s: seq<string>, i: nat)
    requires i < |s|
    ensures InsertAt(RemoveAt(s, i), i, s[i]) == s
  {
  }

  /** Putting x in at i and taking entry i out again changes nothing. */
  lemma RemoveAtInsertAt(s: seq<string>, i: nat, x: string)
    requires i <= |s|
    ensures RemoveAt(InsertAt(s, i, x), i) == s
  {
  }

  /** s with the entry at `from` moved to `to`, the others keeping their order. */
  function Moved(s: seq<string>, from: nat, to: nat): (m: seq<string>)
    requires from < |s| && to < |s|
    ensures |m| == |s| && m[to] == s[from]
  {
    InsertAt(RemoveAt(s, from), to, s[from])
  }

  /** A move keeps the images, puts the moved one at `to`, and keeps the
      others in their order; moving it back from `to` to `from` undoes it. */
  lemma MovedSpec(s: seq<string>, from: nat, to: nat)
    requires from < |s| && to < |s|
    ensures var m := Moved(s, from, to);
            |m| == |s| && multiset(m) == multiset(s) && m[to] == s[from] && RemoveAt(m, to) == RemoveAt(s, from) &&
            Moved(m, to, from) == s
  {
    var m := Moved(s, from, to);
    RemoveAtInsertAt(RemoveAt(s, from), to, s[from]);
    InsertAtRemoveAt(s, from);
  }

  function AddedText(added: nat, total: nat): string {
    "已添加 " + NatToString(added) + " 张，共 " + NatToString(total) + " 张"
  }

  function MovedText(total: nat): string {
    "已调整顺序，共 " + NatToString(total) + " 张"
  }

  function DeletedText(remaining: nat): string {
    if remaining == 0 then Ready else "已删除，剩余 " + NatToString(remaining) + " 张"
  }

  function DeletePrompt(file: string): string {
    "确定要删除 '" + Basename(file) + "' 吗？"
  }

  class StitcherPage {
    /** The images to stitch, in stitching order. */
    var imageFiles: seq<string>
    /** The status line under the list. */
    var status: string

    constructor()
      ensures imageFiles == [] && status == Ready
    {
      imageFiles := [];
      status := Ready;
    }

    /** dropEvent: keep the regular files with an image extension; when there
        is at least one, append them and sort the whole list. */
    method Drop(files: seq<string>, isFile: string -> bool)
      modifies this
      ensures var valid := AcceptedFiles(files, isFile);
              if valid == [] then imageFiles == old(imageFiles) && status == old(status)
              else Sorted(imageFiles) && multiset(imageFiles) == multiset(old(imageFiles)) + multiset(valid) &&
                   status == AddedText(|valid|, |imageFiles|)
    {
      var valid := [];
      for i := 0 to |files|
        invariant valid == AcceptedFiles(files[..i], isFile)
      {
        assert files[..i + 1][..i] == files[..i];
        var file := files[i];
        if isFile(file) && Lower(Extension(file)) in ImageExtensions {
          valid := valid + [file];
        }
      }
      assert files[..|files|] == files;
      if valid != [] {
        imageFiles := Sort(imageFiles + valid);
        status := AddedText(|valid|, |imageFiles|);
      }
    }

    /** move_image: when both indices are in range, take the image out at
        `from` and insert it at `to`. */
    method MoveImage(from: int, to: int)
      modifies this
      ensures if 0 <= from < |old(imageFiles)| && 0 <= to < |old(imageFiles)| then
                |imageFiles| == |old(imageFiles)| && imageFiles[to] == old(imageFiles)[from] &&
                RemoveAt(imageFiles, to) == RemoveAt(old(imageFiles), from) && status == MovedText(|imageFiles|) &&
                imageFiles == Moved(old(imageFiles), from, to)
              else imageFiles == old(imageFiles) && status == old(status)
    {
      if 0 <= from < |imageFiles| && 0 <= to < |imageFiles| {
        ghost var before := imageFiles;
        var item := imageFiles[from];
        imageFiles := RemoveAt(imageFiles, from);
        imageFiles := InsertAt(imageFiles, to, item);
        MovedSpec(before, from, to);
        status := MovedText(|imageFiles|);
      }
    }

    /** delete_image: for an index in range, ask about that file's name and,
        when confirmed, take it out of the list. */
    method DeleteImage(index: int, confirm: bool) returns (prompt: Option<string>)
      modifies this
      ensures 0 <= index < |old(imageFiles)| ==> prompt == Some(DeletePrompt(old(imageFiles)[index]))
      ensures 0 <= index < |old(imageFiles)| && confirm ==>
                imageFiles == RemoveAt(old(imageFiles), index) && status == DeletedText(|imageFiles|)
      ensures !(0 <= index < |old(imageFiles)|) ==> prompt == None
      ensures !(0 <= index < |old(imageFiles)| && confirm) ==> imageFiles == old(imageFiles) && status == old(status)
    {
      prompt := None;
      if 0 <= index < |imageFiles| {
        prompt := Some(DeletePrompt(imageFiles[index]));
        if confirm {
          imageFiles := RemoveAt(imageFiles, index);
          status := DeletedText(|imageFiles|);
        }
      }
    }

    /** clear_list: nothing happens on an empty list; otherwise the operator
        is asked, and a confirmation empties the list. */
    method ClearList(confirm: bool) returns (asked: bool)
      modifies this
      ensures asked <==> old(imageFiles) != []
      ensures asked && confirm ==> imageFiles == [] && status == Ready
      ensures !(asked && confirm) ==> imageFiles == old(imageFiles) && status == old(status)
    {
      if imageFiles == [] {
        return false;
      }
      asked := true;
      if confirm {
        imageFiles := [];
        status := Ready;
      }
    }

    /** start_stitching: with fewer than two images only a warning is shown;
        otherwise a stitch job over the list is started. */
    method StartStitching(params: StitchParams, outputDir: Option<string>, outputName: Option<string>)
      returns (job: StitchJob?)
      ensures job == null <==> |imageFiles| < 2
      ensures job != null ==> fresh(job) && job.imageFiles == imageFiles && job.params == params &&
                              job.outputDir == outputDir && job.outputName == outputName
    {
      if |imageFiles| < 2 {
        return null;
      }
      job := new StitchJob(imageFiles, params, outputDir, outputName);
    }
  }

  /** Dropping the same accepted files in any order, onto lists holding the
      same images in any order, gives the same list. */
  lemma DropOrderIrrelevant(old1: seq<string>, old2: seq<string>, valid1: seq<string>, valid2: seq<string>)
    requires multiset(old1) + multiset(valid1) == multiset(old2) + multiset(valid2)
    ensures Sort(old1 + valid1) == Sort(old2 + valid2)
  {
    SortIgnoresOrder(old1 + valid1, old2 + valid2);
  }

  /** A drop adds exactly the accepted files: an image name is in the new
      list exactly when it was in the old one or was dropped and accepted. */
  lemma DropMembers(before: seq<string>, files: seq<string>, isFile: string -> bool, after: seq<string>)
    requires multiset(after) == multiset(before) + multiset(AcceptedFiles(files, isFile))
    ensures forall f :: f in after <==> f in before || (f in files && Accepted(f, isFile))
  {
    var valid := AcceptedFiles(files, isFile);
    forall f
      ensures f in after <==> f in before || (f in files && Accepted(f, isFile))
    {
      assert f in after <==> f in multiset(after);
      assert f in before <==> f in multiset(before);
      assert f in valid <==> f in multiset(valid);
    }
  }
}
