/** `list_all_files`: every file of a directory tree, as a path or as a
    `(file, target_dir, mode)` task. The tree walk itself (`os.walk`) is an
    input: the sequence of `(root, dirs, files)` entries it yields. */
module Loading {
  import opened Common
  import opened PosixPath

  /** One `(root, dirs, files)` entry of the walk. */
  datatype WalkEntry = WalkEntry(root: Path, dirs: seq<string>, files: seq<string>)

  /** One element of the returned list: a bare path when no target directory
      is given, otherwise the task tuple. */
  datatype Listed = PathOnly(path: Path) | Task(task: FileTask)

  function ListedFor(root: Path, file: string, target: Option<Path>, mode: string): Listed
  {
    match target
    case None => PathOnly(Join(root, file))
    case Some(t) => Task(FileTask(Join(root, file), t, mode))
  }

  /** The path an element names, whichever form it has. */
  function PathOf(l: Listed): Path
  {
    match l
    case PathOnly(p) => p
    case Task(task) => task.file
  }

  /** The elements one walk entry contributes, in the order of its files. */
  function EntryListing(e: WalkEntry, target: Option<Path>, mode: string): (r: seq<Listed>)
    ensures |r| == |e.files|
  {
    seq(|e.files|, j requires 0 <= j < |e.files| => ListedFor(e.root, e.files[j], target, mode))
  }

  /** What `list_all_files` returns: the entries' contributions in walk order. */
  function Listing(walk: seq<WalkEntry>, target: Option<Path>, mode: string): seq<Listed>
  {
    if walk == [] then []
    else Listing(walk[..|walk| - 1], target, mode) + EntryListing(walk[|walk| - 1], target, mode)
  }

  /** The number of files the walk reports. */
  function FileCount(walk: seq<WalkEntry>): nat
  {
    if walk == [] then 0 else FileCount(walk[..|walk| - 1]) + |walk[|walk| - 1].files|
  }

  /** `list_all_files(path, target_dir, mode)` over the entries of the walk. */
  method ListAllFiles(walk: seq<WalkEntry>, target: Option<Path>, mode: string) returns (out: seq<Listed>)
    ensures out == Listing(walk, target, mode)
  {
    out := [];
    var i := 0;
    while i < |walk|
      invariant 0 <= i <= |walk|
      invariant out == Listing(walk[..i], target, mode)
    {
      var e := walk[i];
      ghost var done := out;
      ghost var entry := EntryListing(e, target, mode);
      var j := 0;
      while j < |e.files|
        invariant 0 <= j <= |e.files|
        invariant out == done + entry[..j]
      {
        if target.Some? {
          out := out + [Task(FileTask(Join(e.root, e.files[j]), target.value, mode))];
        } else {
          out := out + [PathOnly(Join(e.root, e.files[j]))];
        }
        assert entry[..j + 1] == entry[..j] + [entry[j]];
        j := j + 1;
      }
      assert entry[..j] == entry;
      assert walk[..i + 1][..i] == walk[..i];
      assert Listing(walk[..i + 1], target, mode) == done + entry;
      i := i + 1;
    }
    assert walk[..i] == walk;
  }

  // ---------------------------------------------------------------------
  // Properties

  /** One element per file reported by the walk. */
  lemma {:induction false} ListingLength(walk: seq<WalkEntry>, target: Option<Path>, mode: string)
    ensures |Listing(walk, target, mode)| == FileCount(walk)
  {
    if walk != [] {
      ListingLength(walk[..|walk| - 1], target, mode);
    }
  }

  /** Listing a walk extended by more entries extends the listing. */
  lemma {:induction false} ListingPrefix(walk: seq<WalkEntry>, n: nat, target: Option<Path>, mode: string)
    requires n <= |walk|
    ensures FileCount(walk[..n]) <= |Listing(walk, target, mode)|
    ensures Listing(walk, target, mode)[..FileCount(walk[..n])] == Listing(walk[..n], target, mode)
    decreases |walk|
  {
    ListingLength(walk, target, mode);
    ListingLength(walk[..n], target, mode);
    if n < |walk| {
      var w := walk[..|walk| - 1];
      assert w[..n] == walk[..n];
      ListingPrefix(w, n, target, mode);
      ListingLength(w, target, mode);
      ListingLength(w[..n], target, mode);
    } else {
      assert walk[..n] == walk;
    }
  }

  /** The file at position `j` of walk entry `i` is listed at position
      `FileCount(walk[..i]) + j`, joined below that entry's root. */
  lemma ListingAt(walk: seq<WalkEntry>, i: nat, j: nat, target: Option<Path>, mode: string)
    requires i < |walk| && j < |walk[i].files|
    ensures FileCount(walk[..i]) + j < |Listing(walk, target, mode)|
    ensures Listing(walk, target, mode)[FileCount(walk[..i]) + j] ==
            ListedFor(walk[i].root, walk[i].files[j], target, mode)
  {
    var w := walk[..i + 1];
    assert w[..|w| - 1] == walk[..i];
    ListingLength(walk[..i], target, mode);
    ListingPrefix(walk, i + 1, target, mode);
    assert FileCount(w) == FileCount(walk[..i]) + |walk[i].files|;
  }

  /** Every element has the form the target selects: with a target directory
      every element is a task carrying that directory and the mode; without
      one every element is a bare path. */
  lemma {:induction false} ListingShape(walk: seq<WalkEntry>, target: Option<Path>, mode: string)
    ensures forall l :: l in Listing(walk, target, mode) ==>
      match target
      case None => l.PathOnly?
      case Some(t) => l.Task? && l.task.targetDir == t && l.task.mode == mode
  {
    if walk != [] {
      ListingShape(walk[..|walk| - 1], target, mode);
    }
  }

  /** The target directory only decorates the elements: with or without it the
      same paths are listed in the same order. */
  lemma {:induction false} ListingSamePaths(walk: seq<WalkEntry>, t: Path, mode: string, otherMode: string)
    ensures |Listing(walk, Some(t), mode)| == |Listing(walk, None, otherMode)|
    ensures forall k :: 0 <= k < |Listing(walk, None, otherMode)| ==>
      PathOf(Listing(walk, Some(t), mode)[k]) == PathOf(Listing(walk, None, otherMode)[k])
  {
    if walk != [] {
      var w := walk[..|walk| - 1];
      var e := walk[|walk| - 1];
      ListingSamePaths(w, t, mode, otherMode);
      var a0 := Listing(w, Some(t), mode);
      var b0 := Listing(w, None, otherMode);
      var a1 := EntryListing(e, Some(t), mode);
      var b1 := EntryListing(e, None, otherMode);
      assert Listing(walk, Some(t), mode) == a0 + a1;
      assert Listing(walk, None, otherMode) == b0 + b1;
      forall k | 0 <= k < |b1|
        ensures PathOf(a1[k]) == PathOf(b1[k])
      {
      }
    }
  }
}
