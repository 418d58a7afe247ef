/** `scan_inputs` (modules/file_handler.py) over an abstract file system.

    Each input is what `os.path.isdir` saw: a directory together with what
    `os.walk` yielded for it, or anything else (a file, a missing path, a
    dangling link), which the scan treats alike. Paths are POSIX paths with
    separator '/'. */
module FileScan {
  import opened Text
  import opened NaturalKey
  import opened KeyOrder
  import opened StableSort

  /** `SUPPORTED_EXTENSIONS` (modules/config.py). */
  const SupportedExtensions: seq<string> := [".jpg", ".jpeg", ".png", ".gif", ".bmp", ".webp"]

  /** `name.lower().endswith(SUPPORTED_EXTENSIONS)`. */
  predicate IsSupported(name: string) {
    exists i :: 0 <= i < |SupportedExtensions| && EndsWith(Lower(name), SupportedExtensions[i])
  }

  /** One `(root, dirs, files)` triple yielded by `os.walk`; `dirs` plays no part. */
  datatype WalkStep = WalkStep(root: string, names: seq<string>)

  datatype Input =
    | Dir(path: string, walk: seq<WalkStep>)
    | NonDir(path: string)

  /** One upload group: a name and its files, in upload order. */
  datatype Job = Job(name: string, files: seq<string>)

  const MiscName: string := "Miscellaneous"

  // ---------------------------------------------------------------------------
  // posixpath helpers

  /** `os.path.join(a, b)`: an absolute `b` replaces `a`; otherwise a '/' is
      inserted unless `a` is empty or already ends with one. */
  function Join(a: string, b: string): (r: string)
    ensures EndsWith(r, b)
    ensures |b| > 0 && b[0] == '/' ==> r == b
    ensures !(|b| > 0 && b[0] == '/') ==>
              && |a| <= |r| && r[..|a|] == a
              && |r| == |a| + |b| + (if |a| == 0 || a[|a| - 1] == '/' then 0 else 1)
              && (|a| > 0 ==> r[|r| - |b| - 1] == '/')
  {
    if |b| > 0 && b[0] == '/' then b
    else if |a| == 0 || a[|a| - 1] == '/' then
      assert (a + b)[|a + b| - |b|..] == b;
      a + b
    else
      assert (a + "/" + b)[|a + "/" + b| - |b|..] == b;
      a + "/" + b
  }

  /** `p.rstrip('/')`. */
  function StripTrailingSeps(p: string): (r: string)
    ensures r == [] || r[|r| - 1] != '/'
    ensures |r| <= |p| && r == p[..|r|]
    ensures forall i :: |r| <= i < |p| ==> p[i] == '/'
  {
    if |p| > 0 && p[|p| - 1] == '/' then
      var r := StripTrailingSeps(p[..|p| - 1]);
      assert p[..|p| - 1][..|r|] == p[..|r|];
      r
    else p
  }

  /** `os.path.basename(p)`: the part after the last '/'. */
  function Basename(p: string): (r: string)
    ensures '/' !in r
    ensures EndsWith(p, r)
    ensures |r| == |p| || p[|p| - |r| - 1] == '/'
  {
    if |p| == 0 || p[|p| - 1] == '/' then []
    else
      var q, c := p[..|p| - 1], p[|p| - 1];
      var b := Basename(q);
      var r := b + [c];
      assert q[|q| - |b|..] == b;
      assert p[|p| - |r|..] == q[|q| - |b|..] + [c];
      assert |b| == |q| || p[|p| - |r| - 1] == q[|q| - |b| - 1];
      r
  }

  /** `os.path.basename(path.rstrip(os.sep))`: a directory job's name. */
  function FolderName(path: string): string {
    Basename(StripTrailingSeps(path))
  }

  // ---------------------------------------------------------------------------
  // The scan as functions

  /** `os.path.join(root, n)` for each supported `n` of `names`, in order. */
  function MatchedNames(root: string, names: seq<string>): seq<string> {
    if |names| == 0 then []
    else
      var n := names[|names| - 1];
      MatchedNames(root, names[..|names| - 1]) + (if IsSupported(n) then [Join(root, n)] else [])
  }

  /** Every supported file `os.walk` reports, in walk order. */
  function Matched(walk: seq<WalkStep>): seq<string> {
    if |walk| == 0 then []
    else
      var step := walk[|walk| - 1];
      Matched(walk[..|walk| - 1]) + MatchedNames(step.root, step.names)
  }

  /** The job a directory input yields, if it holds a supported file. */
  function DirJob(input: Input): seq<Job>
    requires input.Dir?
  {
    var files := Matched(input.walk);
    if files == [] then [] else [Job(FolderName(input.path), SortBy(Key, files))]
  }

  /** One job per directory input that holds a supported file, in input order. */
  function DirJobs(inputs: seq<Input>): seq<Job> {
    if |inputs| == 0 then []
    else
      var last := inputs[|inputs| - 1];
      DirJobs(inputs[..|inputs| - 1]) + (if last.Dir? then DirJob(last) else [])
  }

  /** The supported non-directory inputs, in input order. */
  function Loose(inputs: seq<Input>): seq<string> {
    if |inputs| == 0 then []
    else
      var last := inputs[|inputs| - 1];
      Loose(inputs[..|inputs| - 1]) + (if last.NonDir? && IsSupported(last.path) then [last.path] else [])
  }

  function MiscJob(loose: seq<string>): seq<Job> {
    if loose == [] then [] else [Job(MiscName, SortBy(Key, loose))]
  }

  /** What `scan_inputs(inputs)` returns: at most one job per input plus
      "Miscellaneous", none of them empty, holding only supported files. */
  function Scan(inputs: seq<Input>): (r: seq<Job>)
    ensures |r| <= |inputs| + 1
    ensures forall j :: j in r ==> j.files != []
    ensures forall j, f :: j in r && f in j.files ==> IsSupported(f)
  {
    DirJobsNonEmpty(inputs);
    DirJobsSupported(inputs);
    LooseLength(inputs);
    LooseSupported(inputs);
    var loose := Loose(inputs);
    assert forall f :: f in SortBy(Key, loose) ==> IsSupported(f) by {
      forall f | f in SortBy(Key, loose)
        ensures IsSupported(f)
      {
        assert f in multiset(SortBy(Key, loose));
      }
    }
    DirJobs(inputs) + MiscJob(loose)
  }

  // ---------------------------------------------------------------------------
  // The scan as the source writes it: one pass with nested loops

  method CollectMatches(walk: seq<WalkStep>) returns (files: seq<string>)
    ensures files == Matched(walk)
    ensures forall f :: f in files ==> IsSupported(f)
  {
    files := [];
    var s := 0;
    while s < |walk|
      invariant 0 <= s <= |walk|
      invariant files == Matched(walk[..s])
    {
      var step := walk[s];
      var j := 0;
      var before := files;
      while j < |step.names|
        invariant 0 <= j <= |step.names|
        invariant files == before + MatchedNames(step.root, step.names[..j])
      {
        var n := step.names[j];
        if IsSupported(n) {
          files := files + [Join(step.root, n)];
        }
        assert step.names[..j + 1][..j] == step.names[..j];
        j := j + 1;
      }
      assert step.names[..|step.names|] == step.names;
      assert walk[..s + 1][..s] == walk[..s];
      s := s + 1;
    }
    assert walk[..|walk|] == walk;
    MatchedSupported(walk);
  }

  /** `scan_inputs`: one pass over the inputs, directory jobs appended as they
      are found and the loose files collected into a final job. */
  method ScanInputs(inputs: seq<Input>) returns (jobs: seq<Job>)
    ensures jobs == Scan(inputs)
    ensures forall j, f :: j in jobs && f in j.files ==> IsSupported(f)
    ensures |jobs| <= |inputs| + 1
  {
    jobs := [];
    var misc: seq<string> := [];
    var i := 0;
    while i < |inputs|
      invariant 0 <= i <= |inputs|
      invariant jobs == DirJobs(inputs[..i])
      invariant misc == Loose(inputs[..i])
    {
      var input := inputs[i];
      if input.Dir? {
        var folderName := FolderName(input.path);
        var files := CollectMatches(input.walk);
        if files != [] {
          jobs := jobs + [Job(folderName, SortBy(Key, files))];
        }
      } else if IsSupported(input.path) {
        misc := misc + [input.path];
      }
      assert inputs[..i + 1][..i] == inputs[..i];
      i := i + 1;
    }
    assert inputs[..|inputs|] == inputs;
    if misc != [] {
      jobs := jobs + [Job(MiscName, SortBy(Key, misc))];
    }
  }

  // ---------------------------------------------------------------------------
  // Properties

  /** A path ending in a supported name is itself supported: the comparison
      is on the lower-cased tail, which the join leaves untouched. */
  lemma SupportedSuffix(path: string, name: string)
    requires EndsWith(path, name) && IsSupported(name)
    ensures IsSupported(path)
  {
    var i :| 0 <= i < |SupportedExtensions| && EndsWith(Lower(name), SupportedExtensions[i]);
    LowerEndsWith(path, name);
    EndsWithTrans(Lower(path), Lower(name), SupportedExtensions[i]);
  }

  lemma {:induction false} MatchedNamesSupported(root: string, names: seq<string>)
    ensures forall f :: f in MatchedNames(root, names) ==> IsSupported(f)
  {
    if |names| > 0 {
      var n := names[|names| - 1];
      MatchedNamesSupported(root, names[..|names| - 1]);
      if IsSupported(n) {
        SupportedSuffix(Join(root, n), n);
      }
    }
  }

  lemma {:induction false} MatchedSupported(walk: seq<WalkStep>)
    ensures forall f :: f in Matched(walk) ==> IsSupported(f)
  {
    if |walk| > 0 {
      MatchedSupported(walk[..|walk| - 1]);
      MatchedNamesSupported(walk[|walk| - 1].root, walk[|walk| - 1].names);
    }
  }

  lemma {:induction false} LooseSupported(inputs: seq<Input>)
    ensures forall f :: f in Loose(inputs) ==> IsSupported(f)
  {
    if |inputs| > 0 {
      LooseSupported(inputs[..|inputs| - 1]);
    }
  }

  lemma {:induction false} DirJobsSupported(inputs: seq<Input>)
    ensures forall j, f :: j in DirJobs(inputs) && f in j.files ==> IsSupported(f)
  {
    if |inputs| > 0 {
      var last := inputs[|inputs| - 1];
      DirJobsSupported(inputs[..|inputs| - 1]);
      if last.Dir? {
        MatchedSupported(last.walk);
        var files := Matched(last.walk);
        assert multiset(SortBy(Key, files)) == multiset(files);
        forall f | f in SortBy(Key, files)
          ensures IsSupported(f)
        {
          assert f in multiset(SortBy(Key, files));
        }
      }
    }
  }

  /** Each walked file is reported under the exact name `os.walk` gave,
      joined to its root: its casing is kept. */
  lemma {:induction false} MatchedProvenance(walk: seq<WalkStep>, f: string)
    requires f in Matched(walk)
    ensures exists s, n :: 0 <= s < |walk| && n in walk[s].names && IsSupported(n) && f == Join(walk[s].root, n)
  {
    var last := walk[|walk| - 1];
    if f in Matched(walk[..|walk| - 1]) {
      MatchedProvenance(walk[..|walk| - 1], f);
      var s, n :| 0 <= s < |walk| - 1 && n in walk[..|walk| - 1][s].names && IsSupported(n)
                  && f == Join(walk[..|walk| - 1][s].root, n);
      assert walk[..|walk| - 1][s] == walk[s];
    } else {
      var n := MatchedNamesProvenance(last.root, last.names, f);
    }
  }

  lemma {:induction false} MatchedNamesProvenance(root: string, names: seq<string>, f: string) returns (n: string)
    requires f in MatchedNames(root, names)
    ensures n in names && IsSupported(n) && f == Join(root, n)
  {
    var last := names[|names| - 1];
    if f in MatchedNames(root, names[..|names| - 1]) {
      n := MatchedNamesProvenance(root, names[..|names| - 1], f);
    } else {
      n := last;
    }
  }

  /** A directory yields a job exactly when it holds a supported file, and a
      job never has an empty file list. */
  lemma {:induction false} DirJobsNonEmpty(inputs: seq<Input>)
    ensures forall j :: j in DirJobs(inputs) ==> j.files != []
    ensures |DirJobs(inputs)| <= |inputs|
  {
    if |inputs| > 0 {
      DirJobsNonEmpty(inputs[..|inputs| - 1]);
      var last := inputs[|inputs| - 1];
      if last.Dir? && Matched(last.walk) != [] {
      }
    }
  }

  lemma {:induction false} LooseLength(inputs: seq<Input>)
    ensures |Loose(inputs)| <= |inputs|
  {
    if |inputs| > 0 {
      LooseLength(inputs[..|inputs| - 1]);
    }
  }

  /** The job list is the directory jobs followed by at most one
      "Miscellaneous" job; that last job exists exactly when some
      non-directory input is supported, and it holds those inputs' paths,
      verbatim, in natural order. */
  lemma ScanShape(inputs: seq<Input>)
    ensures Scan(inputs)[..|DirJobs(inputs)|] == DirJobs(inputs)
    ensures (Loose(inputs) == []) == (|Scan(inputs)| == |DirJobs(inputs)|)
    ensures Loose(inputs) != [] ==>
              && |Scan(inputs)| == |DirJobs(inputs)| + 1
              && Scan(inputs)[|Scan(inputs)| - 1] == Job(MiscName, SortBy(Key, Loose(inputs)))
    ensures forall j :: j in Scan(inputs) ==> j.files != []
  {
    DirJobsNonEmpty(inputs);
  }

  /** Every job's files are in non-decreasing natural order, are exactly the
      matched files (as a multiset), and files with equal keys keep their
      walk or input order. */
  lemma ScanJobsSorted(inputs: seq<Input>, j: Job, source: seq<string>)
    requires || (source == Loose(inputs) && j == Job(MiscName, SortBy(Key, source)))
             || (exists d :: d in inputs && d.Dir? && source == Matched(d.walk) && j == Job(FolderName(d.path), SortBy(Key, source)))
    ensures Sorted(Key, j.files)
    ensures multiset(j.files) == multiset(source)
    ensures forall k :: WithKey(Key, j.files, k) == WithKey(Key, source, k)
  {
    SortByCorrect(Key, source);
  }

  /** A directory input never feeds the "Miscellaneous" job, even when its
      own name ends in an image extension; only supported non-directory
      inputs do, each under its exact input path. */
  lemma {:induction false} LooseProvenance(inputs: seq<Input>)
    ensures forall f :: f in Loose(inputs) <==> exists i :: 0 <= i < |inputs| && inputs[i] == NonDir(f) && IsSupported(f)
  {
    if |inputs| > 0 {
      var init := inputs[..|inputs| - 1];
      LooseProvenance(init);
      forall f
        ensures f in Loose(inputs) <==> exists i :: 0 <= i < |inputs| && inputs[i] == NonDir(f) && IsSupported(f)
      {
        if f in Loose(init) {
          var i :| 0 <= i < |init| && init[i] == NonDir(f) && IsSupported(f);
          assert inputs[i] == NonDir(f);
        }
        if exists i :: 0 <= i < |inputs| && inputs[i] == NonDir(f) && IsSupported(f) {
          var i :| 0 <= i < |inputs| && inputs[i] == NonDir(f) && IsSupported(f);
          if i < |inputs| - 1 {
            assert init[i] == NonDir(f);
          }
        }
      }
    }
  }

  /** The indices of the directory inputs that yield a job, in input order. */
  function DirSources(inputs: seq<Input>): (idx: seq<nat>)
    ensures forall k :: 0 <= k < |idx| ==> idx[k] < |inputs|
  {
    if |inputs| == 0 then []
    else
      var last := inputs[|inputs| - 1];
      DirSources(inputs[..|inputs| - 1])
        + (if last.Dir? && Matched(last.walk) != [] then [|inputs| - 1] else [])
  }

  lemma {:induction false} DirSourcesIncreasing(inputs: seq<Input>)
    ensures |DirSources(inputs)| == |DirJobs(inputs)|
    ensures forall k, l :: 0 <= k < l < |DirSources(inputs)| ==> DirSources(inputs)[k] < DirSources(inputs)[l]
  {
    if |inputs| > 0 {
      var init := inputs[..|inputs| - 1];
      var last := inputs[|inputs| - 1];
      DirSourcesIncreasing(init);
      DirJobsSnoc(inputs);
      if last.Dir? {
        DirJobLength(last);
      }
      var idx := DirSources(init);
      var all := DirSources(inputs);
      forall k, l | 0 <= k < l < |all|
        ensures all[k] < all[l]
      {
        assert all[k] == idx[k];
        if l < |idx| {
          assert all[l] == idx[l];
        } else {
          assert all[l] == |inputs| - 1;
        }
      }
    }
  }

  lemma {:induction false} DirSourcesComplete(inputs: seq<Input>)
    ensures forall i :: 0 <= i < |inputs| && inputs[i].Dir? && Matched(inputs[i].walk) != [] ==> i in DirSources(inputs)
  {
    if |inputs| > 0 {
      var init := inputs[..|inputs| - 1];
      DirSourcesComplete(init);
      forall i | 0 <= i < |inputs| - 1 && inputs[i].Dir? && Matched(inputs[i].walk) != []
        ensures i in DirSources(inputs)
      {
        assert init[i] == inputs[i];
      }
    }
  }

  lemma DirJobsSnoc(inputs: seq<Input>)
    requires |inputs| > 0
    ensures var last := inputs[|inputs| - 1];
            && DirJobs(inputs) == DirJobs(inputs[..|inputs| - 1]) + (if last.Dir? then DirJob(last) else [])
            && DirSources(inputs) == DirSources(inputs[..|inputs| - 1])
                 + (if last.Dir? && Matched(last.walk) != [] then [|inputs| - 1] else [])
  {
  }

  lemma DirJobLength(d: Input)
    requires d.Dir?
    ensures |DirJob(d)| == (if Matched(d.walk) != [] then 1 else 0)
  {
  }

  /** The step of `DirSourcesYieldJobs` for a job of an earlier input. */
  lemma DirSourcesYieldEarlier(inputs: seq<Input>, k: nat)
    requires |inputs| > 0
    requires k < |DirJobs(inputs[..|inputs| - 1])|
    requires |DirSources(inputs[..|inputs| - 1])| == |DirJobs(inputs[..|inputs| - 1])|
    requires var init := inputs[..|inputs| - 1];
             init[DirSources(init)[k]].Dir? && [DirJobs(init)[k]] == DirJob(init[DirSources(init)[k]])
    ensures inputs[DirSources(inputs)[k]].Dir?
    ensures [DirJobs(inputs)[k]] == DirJob(inputs[DirSources(inputs)[k]])
  {
    var init := inputs[..|inputs| - 1];
    DirJobsSnoc(inputs);
    var i := DirSources(init)[k];
    assert DirSources(inputs)[k] == i;
    assert DirJobs(inputs)[k] == DirJobs(init)[k];
    assert inputs[i] == init[i];
  }

  /** The step of `DirSourcesYieldJobs` for the last input's job. */
  lemma DirSourcesYieldLast(inputs: seq<Input>, k: nat)
    requires |inputs| > 0
    requires |DirSources(inputs[..|inputs| - 1])| == |DirJobs(inputs[..|inputs| - 1])|
    requires |DirJobs(inputs[..|inputs| - 1])| <= k < |DirJobs(inputs)|
    ensures inputs[DirSources(inputs)[k]].Dir?
    ensures [DirJobs(inputs)[k]] == DirJob(inputs[DirSources(inputs)[k]])
  {
    var init := inputs[..|inputs| - 1];
    var last := inputs[|inputs| - 1];
    DirJobsSnoc(inputs);
    var tailJobs := if last.Dir? then DirJob(last) else [];
    assert |tailJobs| > 0;
    DirJobLength(last);
    assert last.Dir? && Matched(last.walk) != [] && |tailJobs| == 1;
    assert k == |DirJobs(init)|;
    assert DirSources(inputs)[k] == |inputs| - 1;
    assert DirJobs(inputs)[k] == tailJobs[0];
  }

  lemma {:induction false} DirSourcesYieldJobs(inputs: seq<Input>, k: nat)
    requires k < |DirJobs(inputs)|
    ensures |DirSources(inputs)| == |DirJobs(inputs)|
    ensures inputs[DirSources(inputs)[k]].Dir?
    ensures [DirJobs(inputs)[k]] == DirJob(inputs[DirSources(inputs)[k]])
  {
    DirSourcesIncreasing(inputs);
    var init := inputs[..|inputs| - 1];
    DirSourcesIncreasing(init);
    if k < |DirJobs(init)| {
      DirSourcesYieldJobs(init, k);
      DirSourcesYieldEarlier(inputs, k);
    } else {
      DirSourcesYieldLast(inputs, k);
    }
  }

  /** Directory jobs come in the order of their inputs: the k-th job is the
      job of the k-th directory input that holds a supported file, named by
      its last path component after trailing separators are stripped, and
      no such directory is skipped. */
  lemma DirJobsInInputOrder(inputs: seq<Input>)
    ensures |DirSources(inputs)| == |DirJobs(inputs)|
    ensures forall k, l :: 0 <= k < l < |DirSources(inputs)| ==> DirSources(inputs)[k] < DirSources(inputs)[l]
    ensures forall k :: 0 <= k < |DirJobs(inputs)| ==>
              var d := inputs[DirSources(inputs)[k]];
              && d.Dir? && Matched(d.walk) != []
              && DirJobs(inputs)[k] == Job(FolderName(d.path), SortBy(Key, Matched(d.walk)))
    ensures forall i :: 0 <= i < |inputs| && inputs[i].Dir? && Matched(inputs[i].walk) != [] ==> i in DirSources(inputs)
  {
    DirSourcesIncreasing(inputs);
    DirSourcesComplete(inputs);
    forall k | 0 <= k < |DirJobs(inputs)|
      ensures var d := inputs[DirSources(inputs)[k]];
              && d.Dir? && Matched(d.walk) != []
              && DirJobs(inputs)[k] == Job(FolderName(d.path), SortBy(Key, Matched(d.walk)))
    {
      DirSourcesYieldJobs(inputs, k);
    }
  }

  /** The folder name has no separator and is the last component of the
      path once trailing separators are dropped: "/photos/set1/" is named
      "set1". */
  lemma FolderNameIsLastComponent(path: string)
    ensures '/' !in FolderName(path)
    ensures EndsWith(StripTrailingSeps(path), FolderName(path))
    ensures FolderName("/photos/set1/") == "set1"
  {
    assert StripTrailingSeps("/photos/set1/") == "/photos/set1" by {
      assert "/photos/set1/"[..12] == "/photos/set1";
    }
    var p := "/photos/set1";
    assert p[..11] == "/photos/set" && p[..10] == "/photos/se" && p[..9] == "/photos/s" && p[..8] == "/photos/";
  }
}
