/** What CreateFile, UpdateFile and DeleteFile of internal/gitengine/file.go commit on top of
    the head they read, and which other files they leave alone. */
module FileEdits {
  import opened Order
  import opened GitLevel
  import opened GitTree
  import opened Paths

  /** What a caller asks for. `input` is the path as it arrives. */
  datatype Edit =
    | CreateFile(input: string, blob: Hash)
    | UpdateFile(input: string, blob: Hash, sha: Option<Hash>)
    | DeleteFile(input: string, sha: Option<Hash>)

  /** The path after trimming. */
  function PathText(e: Edit): string {
    TrimSpace(e.input)
  }

  predicate Guarded(p: string) {
    p != "" && p[0] != '/' && !HasDotDot(p)
  }

  /** A path no edit accepts: empty, starting with a slash, or with two dots in a row. */
  ghost predicate BadPath(p: string) {
    p == "" || p[0] == '/' || exists i :: 0 <= i < |p| - 1 && p[i] == '.' && p[i + 1] == '.'
  }

  lemma GuardedExactly(p: string)
    ensures Guarded(p) <==> !BadPath(p)
  {
  }

  /** Where an edit writes: empty segments are dropped. */
  function Target(e: Edit): (p: Path)
    ensures Guarded(PathText(e)) ==> p != []
  {
    if Guarded(PathText(e)) then GuardedPathHasSegment(PathText(e)); Segments(PathText(e)) else Segments(PathText(e))
  }

  /** What an edit finds: empty segments are looked up like any other. */
  function Existing(tree: seq<TreeEntry>, e: Edit): Option<TreeEntry> {
    Lookup(tree, Split(PathText(e)))
  }

  function Leaf(path: Path, blob: Hash): TreeEntry
    requires path != []
  {
    TreeEntry(path[|path| - 1], Regular, blob)
  }

  /** The tree of the new commit; None when the request is refused. A caller that sends no
      sha skips the blob comparison. */
  function EditTree(tree: seq<TreeEntry>, e: Edit): Option<seq<TreeEntry>> {
    var existing, path := Existing(tree, e), Target(e);
    if !Guarded(PathText(e)) then None
    else match e
      case CreateFile(_, blob) =>
        if existing.Some? then None else Some(Upsert(tree, path, Leaf(path, blob)))
      case UpdateFile(_, blob, sha) =>
        if existing.None? || (sha.Some? && existing.value.hash != sha.value) then None
        else Some(Upsert(tree, path, Leaf(path, blob)))
      case DeleteFile(_, sha) =>
        if existing.None? || (sha.Some? && existing.value.hash != sha.value) then None
        else Remove(tree, path)
  }

  /** No segment of the path is empty: lookup and write mean the same entry. */
  predicate Plain(e: Edit) {
    "" !in Split(PathText(e))
  }

  lemma PlainFindsTarget(tree: seq<TreeEntry>, e: Edit)
    requires Guarded(PathText(e)) && Plain(e)
    ensures Existing(tree, e) == Lookup(tree, Target(e))
  {
    NonEmptyIdentity(Split(PathText(e)));
  }

  lemma {:induction false} EmptySegmentFindsNothing(tree: seq<TreeEntry>, p: Path)
    requires WellFormed(tree) && p != [] && "" in p
    ensures Lookup(tree, p).None?
    decreases |p|
  {
    var found := Find(tree, p[0]);
    if p[0] == "" {
      FindIsValid(tree, "");
    } else if found.Some? && found.value.mode == Dir {
      EntryIn(tree, p[0]);
      EmptySegmentFindsNothing(Children(found.value.hash), p[1..]);
    }
  }

  lemma {:induction false} EntryIn(es: seq<TreeEntry>, name: string)
    requires Find(es, name).Some?
    ensures Find(es, name).value in es && Find(es, name).value.name == name
  {
  }

  lemma FindIsValid(es: seq<TreeEntry>, name: string)
    requires ValidNames(es) && !ValidName(name)
    ensures Find(es, name).None?
  {
    if Find(es, name).Some? {
      EntryIn(es, name);
    }
  }

  lemma OddFindsNothing(tree: seq<TreeEntry>, e: Edit)
    requires WellFormed(tree) && !Plain(e)
    ensures Existing(tree, e).None?
  {
    EmptySegmentFindsNothing(tree, Split(PathText(e)));
  }

  /** Every edit that is not refused keeps the tree canonical and free of empty directories. */
  lemma EditKeepsTree(tree: seq<TreeEntry>, e: Edit)
    requires WellFormed(tree) && EditTree(tree, e).Some?
    ensures WellFormed(EditTree(tree, e).value)
    ensures Pruned(tree) ==> Pruned(EditTree(tree, e).value)
  {
    SegmentsAreValid(PathText(e));
    if e.DeleteFile? {
      RemoveWellFormed(tree, Target(e));
    } else {
      UpsertWellFormed(tree, Target(e), Leaf(Target(e), e.blob));
    }
  }

  /** An existing path has only directories above it, so deleting it cannot fail. */
  lemma {:induction false} FoundHasParents(tree: seq<TreeEntry>, p: Path)
    requires p != [] && Lookup(tree, p).Some?
    ensures ParentsAreDirs(tree, p)
    decreases |p|
  {
    if |p| > 1 {
      FoundHasParents(Children(Find(tree, p[0]).value.hash), p[1..]);
    }
  }

  /** A create is refused exactly for a bad path or an entry it finds. A path with an empty segment
      finds nothing, so such a create goes through whatever stands where it writes. */
  lemma CreateRefusedExactly(tree: seq<TreeEntry>, e: Edit)
    requires WellFormed(tree) && e.CreateFile?
    ensures EditTree(tree, e).None? <==>
            BadPath(PathText(e)) || ("" !in Split(PathText(e)) && Lookup(tree, Target(e)).Some?)
  {
    GuardedExactly(PathText(e));
    if Guarded(PathText(e)) {
      if Plain(e) {
        PlainFindsTarget(tree, e);
      } else {
        OddFindsNothing(tree, e);
      }
    }
  }

  /** An update or a delete is refused exactly for a bad path, a path with an empty segment, a
      missing path or a stale sha. */
  lemma ChangeRefusedExactly(tree: seq<TreeEntry>, e: Edit)
    requires WellFormed(tree) && !e.CreateFile?
    ensures EditTree(tree, e).None? <==>
            BadPath(PathText(e)) || "" in Split(PathText(e)) || Lookup(tree, Target(e)).None? ||
            (e.sha.Some? && Lookup(tree, Target(e)).value.hash != e.sha.value)
  {
    GuardedExactly(PathText(e));
    if Guarded(PathText(e)) {
      SegmentsAreValid(PathText(e));
      if Plain(e) {
        PlainFindsTarget(tree, e);
        if Lookup(tree, Target(e)).Some? {
          FoundHasParents(tree, Target(e));
          RemoveWellFormed(tree, Target(e));
        }
      } else {
        OddFindsNothing(tree, e);
      }
    }
  }

  /** Every file other than the one at `p` is still there, unchanged. */
  ghost predicate OthersKept(before: seq<TreeEntry>, after: seq<TreeEntry>, p: Path) {
    forall q: Path :: q != [] && q != p && FileAt(before, q).Some? ==> FileAt(after, q) == FileAt(before, q)
  }

  /** A file at a path leaves no room for files below it or above it. */
  lemma {:induction false} FilesAreUnrelated(tree: seq<TreeEntry>, p: Path, q: Path)
    requires p != [] && q != [] && p < q && FileAt(tree, p).Some?
    ensures Lookup(tree, q).None?
    decreases |p|
  {
    if |p| > 1 {
      FilesAreUnrelated(Children(Find(tree, p[0]).value.hash), p[1..], q[1..]);
    }
  }

  lemma WrittenFiles(tree: seq<TreeEntry>, path: Path, blob: Hash)
    requires WellFormed(tree) && ValidPath(path)
    ensures forall q: Path :: q != [] ==>
              FileAt(Upsert(tree, path, Leaf(path, blob)), q) ==
              if q == path then Some(Leaf(path, blob)) else if Related(path, q) then None else FileAt(tree, q)
  {
    forall q: Path | q != []
      ensures FileAt(Upsert(tree, path, Leaf(path, blob)), q) ==
              if q == path then Some(Leaf(path, blob)) else if Related(path, q) then None else FileAt(tree, q)
    {
      UpsertFiles(tree, path, Leaf(path, blob), q);
    }
  }

  /** A create keeps every other file exactly when no file stands where a parent directory goes
      and no directory stands at the path itself. The second can only happen to a path with an
      empty segment. */
  lemma CreateKeepsOthersExactly(tree: seq<TreeEntry>, e: Edit)
    requires WellFormed(tree) && Pruned(tree) && e.CreateFile? && EditTree(tree, e).Some?
    ensures FileAt(EditTree(tree, e).value, Target(e)) == Some(Leaf(Target(e), e.blob))
    ensures OthersKept(tree, EditTree(tree, e).value, Target(e)) <==>
            NoFileAbove(tree, Target(e)) &&
            !(Lookup(tree, Target(e)).Some? && Lookup(tree, Target(e)).value.mode == Dir)
    ensures Plain(e) ==> Lookup(tree, Target(e)).None?
  {
    var path, after := Target(e), EditTree(tree, e).value;
    SegmentsAreValid(PathText(e));
    WrittenFiles(tree, path, e.blob);
    if Plain(e) {
      PlainFindsTarget(tree, e);
    }
    if Lookup(tree, path).Some? {
      KeptExactly(tree, after, path);
      NothingAboveFound(tree, path);
    } else {
      forall q: Path | q != [] && path <= q
        ensures FileAt(tree, q).None?
      {
        NothingBelowMissing(tree, path, q);
      }
      assert forall q: Path :: q != [] && q < path ==> FileAt(after, q).None?;
    }
  }

  lemma NothingAboveFound(tree: seq<TreeEntry>, path: Path)
    requires path != [] && Lookup(tree, path).Some?
    ensures NoFileAbove(tree, path)
  {
    forall q: Path | q != [] && q < path
      ensures FileAt(tree, q).None?
    {
      if FileAt(tree, q).Some? {
        FilesAreUnrelated(tree, q, path);
      }
    }
  }

  /** UpdateFile keeps every other file exactly when the path names a file: on a pruned tree,
      updating a directory replaces it and loses what was below. */
  lemma UpdateKeepsOthersExactly(tree: seq<TreeEntry>, e: Edit)
    requires WellFormed(tree) && Pruned(tree) && e.UpdateFile? && EditTree(tree, e).Some?
    ensures FileAt(EditTree(tree, e).value, Target(e)) == Some(Leaf(Target(e), e.blob))
    ensures OthersKept(tree, EditTree(tree, e).value, Target(e)) <==> FileAt(tree, Target(e)).Some?
  {
    ChangeRefusedExactly(tree, e);
    SegmentsAreValid(PathText(e));
    WrittenFiles(tree, Target(e), e.blob);
    KeptExactly(tree, EditTree(tree, e).value, Target(e));
  }

  /** DeleteFile keeps every other file exactly when the path names a file. */
  lemma DeleteKeepsOthersExactly(tree: seq<TreeEntry>, e: Edit)
    requires WellFormed(tree) && Pruned(tree) && e.DeleteFile? && EditTree(tree, e).Some?
    ensures Lookup(EditTree(tree, e).value, Target(e)).None?
    ensures OthersKept(tree, EditTree(tree, e).value, Target(e)) <==> FileAt(tree, Target(e)).Some?
  {
    var path, after := Target(e), EditTree(tree, e).value;
    ChangeRefusedExactly(tree, e);
    SegmentsAreValid(PathText(e));
    RemoveFrame(tree, path, path);
    forall q: Path | q != []
      ensures FileAt(after, q) == if path <= q then None else FileAt(tree, q)
    {
      RemoveFiles(tree, path, q);
    }
    KeptExactly(tree, after, path);
  }

  /** A change that clears everything below an existing path keeps the other files exactly
      when that path is a file. */
  lemma KeptExactly(tree: seq<TreeEntry>, after: seq<TreeEntry>, path: Path)
    requires WellFormed(tree) && Pruned(tree) && path != [] && Lookup(tree, path).Some?
    requires forall q: Path :: q != [] && path < q ==> FileAt(after, q).None?
    requires forall q: Path :: q != [] && !Related(path, q) ==> FileAt(after, q) == FileAt(tree, q)
    ensures OthersKept(tree, after, path) <==> FileAt(tree, path).Some?
  {
    forall q: Path | q != [] && q < path
      ensures FileAt(tree, q).None?
    {
      if FileAt(tree, q).Some? {
        FilesAreUnrelated(tree, q, path);
      }
    }
    if FileAt(tree, path).Some? {
      forall q: Path | q != [] && path < q
        ensures FileAt(tree, q).None?
      {
        FilesAreUnrelated(tree, path, q);
      }
    } else {
      var below := SomeFileBelow(tree, path);
      assert path < below && FileAt(after, below).None?;
    }
  }

  /** Below an existing directory of a pruned tree there is a file. */
  lemma {:induction false} SomeFileBelow(tree: seq<TreeEntry>, p: Path) returns (q: Path)
    requires WellFormed(tree) && Pruned(tree) && p != []
    requires Lookup(tree, p).Some? && Lookup(tree, p).value.mode == Dir
    ensures p < q && FileAt(tree, q).Some?
    decreases |p|
  {
    var child := Find(tree, p[0]).value.hash.obj.entries;
    var rest: Path;
    if |p| == 1 {
      rest := SomeFile(child);
    } else {
      rest := SomeFileBelow(child, p[1..]);
    }
    q := [p[0]] + rest;
    assert q[1..] == rest && p == [p[0]] + p[1..];
  }
}
