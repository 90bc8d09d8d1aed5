/** writeInitialTree of internal/gitengine/engine.go: the first tree of a repository. */
module GitSeed {
  import opened Order
  import opened GitLevel
  import opened GitTree
  import opened GitStore
  import opened Paths

  datatype ArchiveFile = ArchiveFile(path: string, content: seq<bv8>)

  // ---- Seeding ----

  function LeafFor(f: ArchiveFile): (e: TreeEntry)
    requires Segments(f.path) != []
    ensures e.name == Segments(f.path)[|Segments(f.path)| - 1]
  {
    var parts := Segments(f.path);
    TreeEntry(parts[|parts| - 1], Regular, HashOf(Blob(f.content)))
  }

  ghost predicate Addressable(files: seq<ArchiveFile>) {
    forall f :: f in files ==> Segments(f.path) != []
  }

  /** The tree after writing the files one after another into an empty root. */
  ghost function Seed(files: seq<ArchiveFile>): seq<TreeEntry>
    requires Addressable(files)
  {
    if files == [] then []
    else
      var f := files[|files| - 1];
      Upsert(Seed(files[..|files| - 1]), Segments(f.path), LeafFor(f))
  }

  /** What the file list says about a path: the last file written there, unless a later
      file was written above or below it. */
  ghost function SeededAt(files: seq<ArchiveFile>, q: Path): Option<TreeEntry>
    requires Addressable(files)
  {
    if files == [] then None
    else
      var f := files[|files| - 1];
      if Segments(f.path) == q then Some(LeafFor(f))
      else if Related(Segments(f.path), q) then None
      else SeededAt(files[..|files| - 1], q)
  }

  /** Seeding always gives a canonical pruned tree, and its flat view is what the list says. */
  lemma {:induction false} SeedFiles(files: seq<ArchiveFile>)
    requires Addressable(files)
    ensures WellFormed(Seed(files)) && Pruned(Seed(files))
    ensures forall q: Path :: q != [] ==> FileAt(Seed(files), q) == SeededAt(files, q)
    decreases |files|
  {
    if files != [] {
      var f := files[|files| - 1];
      var before := Seed(files[..|files| - 1]);
      SeedFiles(files[..|files| - 1]);
      SegmentsAreValid(f.path);
      UpsertWellFormed(before, Segments(f.path), LeafFor(f));
      forall q: Path | q != []
        ensures FileAt(Seed(files), q) == SeededAt(files, q)
      {
        UpsertFiles(before, Segments(f.path), LeafFor(f), q);
      }
    } else {
      forall q: Path | q != []
        ensures FileAt([], q).None?
      {
        assert Find([], q[0]).None?;
      }
    }
  }

  /** No file path is a prefix of another: no duplicates, and no file used as a directory. */
  ghost predicate PrefixFree(files: seq<ArchiveFile>) {
    forall i, j :: 0 <= i < |files| && 0 <= j < |files| && i != j ==>
      !(Segments(files[i].path) <= Segments(files[j].path))
  }

  /** Files whose paths meet are the same file. */
  ghost predicate Consistent(files: seq<ArchiveFile>) {
    forall f, g :: f in files && g in files && Related(Segments(f.path), Segments(g.path)) ==> SameFile(f, g)
  }

  ghost predicate SameFile(f: ArchiveFile, g: ArchiveFile) {
    Segments(f.path) == Segments(g.path) && f.content == g.content
  }

  /** No later file is written at, above or below the `i`th one. */
  ghost predicate Survives(files: seq<ArchiveFile>, i: nat)
    requires i < |files|
  {
    forall j :: i < j < |files| ==> !Related(Segments(files[i].path), Segments(files[j].path))
  }

  ghost predicate SurvivesAt(files: seq<ArchiveFile>, i: nat, q: Path) {
    i < |files| && Segments(files[i].path) == q && Survives(files, i)
  }

  lemma SurvivesSnoc(init: seq<ArchiveFile>, last: ArchiveFile, i: nat)
    requires i < |init|
    ensures Survives(init + [last], i) <==> Survives(init, i) && !Related(Segments(init[i].path), Segments(last.path))
  {
    var files := init + [last];
    assert files[|init|] == last;
    assert forall j :: 0 <= j < |init| ==> files[j] == init[j];
    if Survives(files, i) {
      forall j | i < j < |init|
        ensures !Related(Segments(init[i].path), Segments(init[j].path))
      {
        assert files[j] == init[j];
      }
    }
  }

  /** The file seeded at a path is the one that survives there. */
  lemma {:induction false} SeededSurvives(files: seq<ArchiveFile>, q: Path) returns (i: nat)
    requires Addressable(files) && SeededAt(files, q).Some?
    ensures SurvivesAt(files, i, q) && SeededAt(files, q) == Some(LeafFor(files[i]))
    decreases |files|
  {
    var init, last := files[..|files| - 1], files[|files| - 1];
    assert files == init + [last];
    if Segments(last.path) == q {
      i := |files| - 1;
    } else {
      i := SeededSurvives(init, q);
      SurvivesSnoc(init, last, i);
    }
  }

  lemma {:induction false} SurvivorSeeded(files: seq<ArchiveFile>, i: nat)
    requires Addressable(files) && i < |files| && Survives(files, i)
    ensures SeededAt(files, Segments(files[i].path)) == Some(LeafFor(files[i]))
    decreases |files|
  {
    var init, last := files[..|files| - 1], files[|files| - 1];
    assert files == init + [last];
    if i < |init| {
      SurvivesSnoc(init, last, i);
      SurvivorSeeded(init, i);
    }
  }

  /** In a consistent archive every file is found, whatever the order. */
  lemma {:induction false} ConsistentSeededAt(files: seq<ArchiveFile>, f: ArchiveFile)
    requires Addressable(files) && Consistent(files) && f in files
    ensures SeededAt(files, Segments(f.path)) == Some(LeafFor(f))
    decreases |files|
  {
    var init, last := files[..|files| - 1], files[|files| - 1];
    assert files == init + [last] && last in files;
    if !Related(Segments(last.path), Segments(f.path)) {
      assert f in init;
      ConsistentSeededAt(init, f);
    } else {
      assert SameFile(f, last);
    }
  }

  lemma SeededOnlyBy(a: seq<ArchiveFile>, b: seq<ArchiveFile>, q: Path)
    requires Addressable(a) && Addressable(b) && Consistent(b) && forall f :: f in a ==> f in b
    ensures SeededAt(a, q).Some? ==> SeededAt(b, q) == SeededAt(a, q)
  {
    if SeededAt(a, q).Some? {
      var i := SeededSurvives(a, q);
      ConsistentSeededAt(b, a[i]);
    }
  }

  /** Order does not matter: consistent archives with the same files seed the same tree. */
  lemma SeedOrderIrrelevant(a: seq<ArchiveFile>, b: seq<ArchiveFile>)
    requires Addressable(a) && Consistent(a) && forall f :: f in a <==> f in b
    ensures Addressable(b) && Seed(a) == Seed(b)
    ensures HashOf(Tree(Seed(a))) == HashOf(Tree(Seed(b)))
  {
    SeedFiles(a);
    SeedFiles(b);
    forall q: Path | q != []
      ensures FileAt(Seed(a), q) == FileAt(Seed(b), q)
    {
      SeededOnlyBy(a, b, q);
      SeededOnlyBy(b, a, q);
    }
    CanonicalForm(Seed(a), Seed(b));
  }

  ghost predicate SeedsSame(files: seq<ArchiveFile>, other: seq<ArchiveFile>)
    requires Addressable(files)
  {
    Addressable(other) && Seed(other) == Seed(files)
  }

  /** Of two files that meet and differ, the one written last decides. */
  lemma LastPairDecides(rest: seq<ArchiveFile>, f: ArchiveFile, g: ArchiveFile)
    requires Addressable(rest + [f, g]) && Addressable(rest + [g, f])
    requires Related(Segments(f.path), Segments(g.path)) && !SameFile(f, g)
    ensures Seed(rest + [f, g]) != Seed(rest + [g, f])
  {
    var fg, gf := rest + [f, g], rest + [g, f];
    assert f in fg && g in fg && f in gf;
    assert fg[|fg| - 1] == g && gf[|gf| - 1] == f;
    assert gf[..|gf| - 1] == rest + [g];
    SeedFiles(fg);
    SeedFiles(gf);
    assert FileAt(Seed(fg), Segments(g.path)) == SeededAt(fg, Segments(g.path)) == Some(LeafFor(g));
    assert FileAt(Seed(gf), Segments(g.path)) == SeededAt(gf, Segments(g.path));
  }

  /** Moving two files to the end is a permutation. */
  lemma MoveToEnd(files: seq<ArchiveFile>, i: nat, j: nat) returns (rest: seq<ArchiveFile>)
    requires i < j < |files|
    ensures multiset(rest + [files[i], files[j]]) == multiset(files) == multiset(rest + [files[j], files[i]])
  {
    rest := files[..i] + files[i + 1..j] + files[j + 1..];
    assert files == files[..i] + [files[i]] + files[i + 1..j] + [files[j]] + files[j + 1..];
  }

  lemma SameElementsOf(a: seq<ArchiveFile>, b: seq<ArchiveFile>)
    requires multiset(a) == multiset(b)
    ensures forall f :: f in a <==> f in b
  {
    forall f
      ensures f in a <==> f in b
    {
      assert f in multiset(a) <==> f in multiset(b);
    }
  }

  /** Every order of an archive's files seeds the same tree exactly when files whose paths meet are
      the same file. */
  lemma OrderMattersExactly(files: seq<ArchiveFile>)
    requires Addressable(files)
    ensures (forall other: seq<ArchiveFile> :: multiset(other) == multiset(files) ==> SeedsSame(files, other)) <==>
            Consistent(files)
  {
    if Consistent(files) {
      forall other: seq<ArchiveFile> | multiset(other) == multiset(files)
        ensures SeedsSame(files, other)
      {
        SameElementsOf(files, other);
        SeedOrderIrrelevant(files, other);
      }
    } else {
      var f, g :| f in files && g in files && Related(Segments(f.path), Segments(g.path)) && !SameFile(f, g);
      DifferentOrders(files, f, g);
    }
  }

  lemma DifferentOrders(files: seq<ArchiveFile>, f: ArchiveFile, g: ArchiveFile)
    requires Addressable(files) && f in files && g in files
    requires Related(Segments(f.path), Segments(g.path)) && !SameFile(f, g)
    ensures exists other: seq<ArchiveFile> :: multiset(other) == multiset(files) && !SeedsSame(files, other)
  {
    var i :| 0 <= i < |files| && files[i] == f;
    var j :| 0 <= j < |files| && files[j] == g;
    if i < j {
      var rest := MoveToEnd(files, i, j);
      EitherOrder(files, rest, f, g);
    } else {
      var rest := MoveToEnd(files, j, i);
      EitherOrder(files, rest, f, g);
    }
  }

  lemma EitherOrder(files: seq<ArchiveFile>, rest: seq<ArchiveFile>, f: ArchiveFile, g: ArchiveFile)
    requires Addressable(files) && Related(Segments(f.path), Segments(g.path)) && !SameFile(f, g)
    requires multiset(rest + [f, g]) == multiset(files) == multiset(rest + [g, f])
    ensures exists other: seq<ArchiveFile> :: multiset(other) == multiset(files) && !SeedsSame(files, other)
  {
    SameElementsOf(files, rest + [f, g]);
    SameElementsOf(files, rest + [g, f]);
    LastPairDecides(rest, f, g);
    assert !SeedsSame(files, rest + [f, g]) || !SeedsSame(files, rest + [g, f]);
  }

  /** One round of writeInitialTree: write the blob, upsert it, reload the new root. */
  method AddFile(store: ObjectStore, root: seq<TreeEntry>, f: ArchiveFile)
    returns (h: Hash, newRoot: seq<TreeEntry>)
    requires store.Valid() && Segments(f.path) != [] && Reachable(store.objects, root)
    modifies store
    ensures store.Valid() && Grown(old(store.objects), store.objects)
    ensures newRoot == Upsert(root, Segments(f.path), LeafFor(f))
    ensures h == HashOf(Tree(newRoot)) && h in store.objects && Reachable(store.objects, newRoot)
    ensures HashOf(Blob(f.content)) in store.objects
  {
    var parts := SplitPath(f.path);
    var blobHash := store.WriteBlob(f.content);
    ReachableGrows(old(store.objects), store.objects, root);
    var treeHash := store.UpsertEntry(root, parts, TreeEntry(parts[|parts| - 1], Regular, blobHash));
    h := treeHash.value;
    var loaded := store.LoadTree(h);
    newRoot := loaded.value;
  }

  ghost predicate BlobsStored(objects: Objects, files: seq<ArchiveFile>, n: nat)
    requires n <= |files|
  {
    forall k :: 0 <= k < n ==> HashOf(Blob(files[k].content)) in objects
  }

  lemma BlobsStoredStep(before: Objects, after: Objects, files: seq<ArchiveFile>, n: nat)
    requires n < |files| && BlobsStored(before, files, n) && Grown(before, after)
    requires HashOf(Blob(files[n].content)) in after
    ensures BlobsStored(after, files, n + 1)
  {
    forall k | 0 <= k < n + 1
      ensures HashOf(Blob(files[k].content)) in after
    {
    }
  }

  /** writeInitialTree: it fails only on an empty file list, and otherwise returns the hash
      of the seeded tree, with the whole tree and every blob stored. */
  method WriteInitialTree(store: ObjectStore, files: seq<ArchiveFile>) returns (r: Option<Hash>)
    requires store.Valid() && Addressable(files)
    modifies store
    ensures store.Valid() && Grown(old(store.objects), store.objects)
    ensures r.None? <==> files == []
    ensures r.Some? ==>
              r.value == HashOf(Tree(Seed(files))) && r.value in store.objects &&
              Reachable(store.objects, Seed(files))
    ensures BlobsStored(store.objects, files, |files|)
  {
    var root: seq<TreeEntry> := [];
    r := None;
    for i := 0 to |files|
      invariant store.Valid() && Grown(old(store.objects), store.objects)
      invariant root == Seed(files[..i]) && Reachable(store.objects, root)
      invariant r.None? <==> i == 0
      invariant r.Some? ==> r.value == HashOf(Tree(root)) && r.value in store.objects
      invariant BlobsStored(store.objects, files, i)
    {
      SeedPrefix(files, i);
      ghost var before := store.objects;
      var h, newRoot := AddFile(store, root, files[i]);
      BlobsStoredStep(before, store.objects, files, i);
      root, r := newRoot, Some(h);
    }
    assert files[..|files|] == files;
  }

  lemma SeedPrefix(files: seq<ArchiveFile>, i: nat)
    requires Addressable(files) && i < |files|
    ensures Seed(files[..i + 1]) == Upsert(Seed(files[..i]), Segments(files[i].path), LeafFor(files[i]))
  {
    assert files[..i + 1][..i] == files[..i];
  }
}
