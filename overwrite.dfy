/** The overwrite rule every job applies to each output it is about to
    write: a path that does not exist yet is written; an existing one is
    written only if the operator, asked at that moment, allows it. A
    declined item leaves no trace: nothing is written, no result is
    recorded, the job moves on. */
module Overwrite {

  predicate Proceeds(path: string, existing: set<string>, answer: bool) {
    path !in existing || answer
  }

  /** One run of a job's output loop, seen from the file system: the
      candidate output paths in processing order, the answer the operator
      gives if asked about item i, and the files present at the start. */
  datatype Batch = Batch(paths: seq<string>, answers: seq<bool>, existing: set<string>)
  {
    predicate Valid() {
      |answers| == |paths|
    }

    /** The files present after the first n candidates were handled: each
        write adds its path, so a later item with the same path is asked about. */
    function ExistingAfter(n: nat): set<string>
      requires Valid() && n <= |paths|
    {
      if n == 0 then existing
      else
        var before := ExistingAfter(n - 1);
        if Proceeds(paths[n - 1], before, answers[n - 1]) then before + {paths[n - 1]} else before
    }

    /** Item i is written. */
    predicate Written(i: nat)
      requires Valid() && i < |paths|
    {
      Proceeds(paths[i], ExistingAfter(i), answers[i])
    }

    /** The entries of xs (one per candidate) whose item was written, among the first n, in order. */
    function Kept<T>(xs: seq<T>, n: nat): seq<T>
      requires Valid() && |xs| == |paths| && n <= |paths|
    {
      if n == 0 then []
      else Kept(xs, n - 1) + (if Written(n - 1) then [xs[n - 1]] else [])
    }

    /** The indices of the written items among the first n, in order. */
    function WrittenIndices(n: nat): seq<nat>
      requires Valid() && n <= |paths|
    {
      if n == 0 then []
      else WrittenIndices(n - 1) + (if Written(n - 1) then [n - 1] else [])
    }
  }

  /** One step of a job's output loop: item i is handled against the files
      present so far, and is kept exactly when it is written. */
  lemma Step<T>(b: Batch, xs: seq<T>, i: nat)
    requires b.Valid() && |xs| == |b.paths| && i < |b.paths|
    ensures b.Written(i) == Proceeds(b.paths[i], b.ExistingAfter(i), b.answers[i])
    ensures b.ExistingAfter(i + 1) == if b.Written(i) then b.ExistingAfter(i) + {b.paths[i]} else b.ExistingAfter(i)
    ensures b.Kept(xs, i + 1) == b.Kept(xs, i) + if b.Written(i) then [xs[i]] else []
  {
  }

  /** Once n items are handled, each of their paths exists: it was written,
      or it existed already and was kept. Nothing is ever removed. */
  lemma {:induction false} CandidatesExistAfter(b: Batch, n: nat)
    requires b.Valid() && n <= |b.paths|
    ensures b.existing <= b.ExistingAfter(n)
    ensures forall i :: 0 <= i < n ==> b.paths[i] in b.ExistingAfter(n)
  {
    if n > 0 {
      CandidatesExistAfter(b, n - 1);
    }
  }

  /** The files after n items are the starting files plus exactly the paths written. */
  lemma {:induction false} ExistingAfterIsUnion(b: Batch, n: nat)
    requires b.Valid() && n <= |b.paths|
    ensures forall x :: x in b.ExistingAfter(n) <==>
                          x in b.existing || exists i :: 0 <= i < n && b.Written(i) && b.paths[i] == x
  {
    if n > 0 {
      ExistingAfterIsUnion(b, n - 1);
      forall x
        ensures x in b.ExistingAfter(n) <==>
                  x in b.existing || exists i :: 0 <= i < n && b.Written(i) && b.paths[i] == x
      {
        if x !in b.ExistingAfter(n) {
          assert x !in b.ExistingAfter(n - 1);
          assert !(b.Written(n - 1) && b.paths[n - 1] == x);
        }
      }
    }
  }

  /** Item i is written exactly when the operator allows it or its path is
      neither a starting file nor the path of an earlier written item. */
  lemma WrittenIff(b: Batch, i: nat)
    requires b.Valid() && i < |b.paths|
    ensures b.Written(i) <==>
              b.answers[i] ||
              (b.paths[i] !in b.existing && forall j :: 0 <= j < i && b.Written(j) ==> b.paths[j] != b.paths[i])
  {
    ExistingAfterIsUnion(b, i);
    if !b.answers[i] && b.paths[i] !in b.existing && !b.Written(i) {
      var j :| 0 <= j < i && b.Written(j) && b.paths[j] == b.paths[i];
    }
  }

  /** A declined item is not written and adds no file. */
  lemma DeclinedLeavesNoTrace(b: Batch, i: nat)
    requires b.Valid() && i < |b.paths|
    requires b.paths[i] in b.ExistingAfter(i) && !b.answers[i]
    ensures !b.Written(i)
    ensures b.ExistingAfter(i + 1) == b.ExistingAfter(i)
  {
  }

  /** The written indices are increasing, below n, and are exactly the written items. */
  lemma {:induction false} WrittenIndicesSpec(b: Batch, n: nat)
    requires b.Valid() && n <= |b.paths|
    ensures var w := b.WrittenIndices(n);
            (forall k :: 0 <= k < |w| ==> w[k] < n) &&
            (forall k, l :: 0 <= k < l < |w| ==> w[k] < w[l]) &&
            (forall i :: 0 <= i < n ==> (b.Written(i) <==> i in w))
  {
    if n > 0 {
      WrittenIndicesSpec(b, n - 1);
    }
  }

  /** The kept entries are the entries of the written items, in their order. */
  lemma {:induction false} KeptSelects<T>(b: Batch, xs: seq<T>, n: nat)
    requires b.Valid() && |xs| == |b.paths| && n <= |b.paths|
    ensures var w := b.WrittenIndices(n);
            |b.Kept(xs, n)| == |w| &&
            forall k :: 0 <= k < |w| ==> w[k] < |xs| && b.Kept(xs, n)[k] == xs[w[k]]
  {
    WrittenIndicesSpec(b, n);
    if n > 0 {
      KeptSelects(b, xs, n - 1);
    }
  }

  /** Every kept entry is the entry of some written item. */
  lemma KeptMembers<T>(b: Batch, xs: seq<T>, n: nat, x: T)
    requires b.Valid() && |xs| == |b.paths| && n <= |b.paths|
    requires x in b.Kept(xs, n)
    ensures exists i :: 0 <= i < n && b.Written(i) && xs[i] == x
  {
    KeptSelects(b, xs, n);
    WrittenIndicesSpec(b, n);
    var w := b.WrittenIndices(n);
    var k :| 0 <= k < |b.Kept(xs, n)| && b.Kept(xs, n)[k] == x;
    assert b.Written(w[k]);
  }

  /** When no candidate exists beforehand and no two candidates share a
      path, nobody is asked and every item is written. */
  lemma {:induction false} FreshPathsAllWritten<T>(b: Batch, xs: seq<T>, n: nat)
    requires b.Valid() && |xs| == |b.paths| && n <= |b.paths|
    requires forall i :: 0 <= i < n ==> b.paths[i] !in b.existing
    requires forall i, j :: 0 <= i < j < n ==> b.paths[i] != b.paths[j]
    ensures forall i :: 0 <= i < n ==> b.Written(i)
    ensures b.Kept(xs, n) == xs[..n]
  {
    if n > 0 {
      FreshPathsAllWritten(b, xs, n - 1);
      WrittenIff(b, n - 1);
      assert xs[..n] == xs[..n - 1] + [xs[n - 1]];
    }
  }

  /** When the operator allows every overwrite, every item is written. */
  lemma {:induction false} AllAllowedAllWritten<T>(b: Batch, xs: seq<T>, n: nat)
    requires b.Valid() && |xs| == |b.paths| && n <= |b.paths|
    requires forall i :: 0 <= i < n ==> b.answers[i]
    ensures b.Kept(xs, n) == xs[..n]
  {
    if n > 0 {
      AllAllowedAllWritten(b, xs, n - 1);
      assert xs[..n] == xs[..n - 1] + [xs[n - 1]];
    }
  }

  /** The write step every job's loop takes for item i: write (adding the
      path to the files and x to the results) unless the path exists and the
      operator declines. It is step i of the batch. */
  method WriteUnlessDeclined<T>(ghost b: Batch, ghost xs: seq<T>, i: nat, path: string, answer: bool, x: T,
                                files: set<string>, results: seq<T>)
    returns (written: bool, files': set<string>, results': seq<T>)
    requires b.Valid() && |xs| == |b.paths| && i < |b.paths|
    requires path == b.paths[i] && answer == b.answers[i] && x == xs[i]
    requires files == b.ExistingAfter(i) && results == b.Kept(xs, i)
    ensures written == Proceeds(path, files, answer) == b.Written(i)
    ensures files' == (if written then files + {path} else files) && files' == b.ExistingAfter(i + 1)
    ensures results' == (if written then results + [x] else results) && results' == b.Kept(xs, i + 1)
  {
    Step(b, xs, i);
    written := path !in files || answer;
    files', results' := files, results;
    if written {
      files' := files + {path};
      results' := results + [x];
    }
  }

  /** The mutex-guarded handshake state of a job: the operator's last
      answer and whether the worker is waiting for one. The job loops do
      not hold one: they take the operator's answers as a sequence and
      apply Proceeds through Batch and WriteUnlessDeclined. This class
      models only the state set_overwrite_allowed keeps, and Consult is
      proved to decide each path as Proceeds does. */
  class OverwriteGate {
    var allowed: bool
    var waiting: bool

    constructor ()
      ensures allowed && !waiting
    {
      allowed := true;
      waiting := false;
    }

    /** set_overwrite_allowed: store the operator's answer; the waiting flag
        is left to the worker. */
    method SetOverwriteAllowed(answer: bool)
      modifies this
      ensures allowed == answer && waiting == old(waiting)
    {
      allowed := answer;
    }

    /** The worker's side for one candidate path: only an existing path
        raises the waiting flag and asks; the foreground answers through
        SetOverwriteAllowed; the worker then reads the stored answer. */
    method Consult(path: string, existing: set<string>, answer: bool) returns (proceed: bool)
      requires !waiting
      modifies this
      ensures proceed == Proceeds(path, existing, answer)
      ensures !waiting
      ensures allowed == if path in existing then answer else old(allowed)
    {
      proceed := true;
      if path in existing {
        waiting := true;
        SetOverwriteAllowed(answer);
        waiting := false;
        proceed := allowed;
      }
    }
  }
}
