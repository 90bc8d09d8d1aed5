/** Small trees, paths and archives on which file edits and imports lose a file. */
module LostFiles {
  import opened Order
  import opened Paths
  import opened GitLevel
  import opened GitTree
  import opened GitSeed
  import opened FileEdits
  import opened SkillArchive
  import ImportRoundTrip

  const OLD := HashOf(Blob([]))
  const NEW := HashOf(Blob([1]))

  /** A file `a`. */
  const FLAT := [TreeEntry("a", Regular, OLD)]

  /** A directory `a` with a file `b`. */
  const NESTED := [DirEntry("a", [TreeEntry("b", Regular, OLD)])]

  lemma TreesAreSound()
    ensures WellFormed(FLAT) && Pruned(FLAT) && WellFormed(NESTED) && Pruned(NESTED)
    ensures FileAt(FLAT, ["a"]).Some? && FileAt(NESTED, ["a", "b"]) == Some(TreeEntry("b", Regular, OLD))
    ensures Lookup(NESTED, ["a"]) == Some(NESTED[0])
  {
    assert ValidName("a") && ValidName("b");
    var level := [TreeEntry("b", Regular, OLD)];
    assert CanonicalLevel(level) && CanonicalLevel(FLAT) && CanonicalLevel(NESTED);
    assert Children(NESTED[0].hash) == level && Find(level, "b") == Some(level[0]);
    assert ["a", "b"][1..] == ["b"];
  }

  lemma Splits()
    ensures Split("a") == ["a"] && Split("a/b") == ["a", "b"] && Split("a//b") == ["a", "", "b"]
    ensures Segments("a") == ["a"] && Segments("a/b") == ["a", "b"] && Segments("a//b") == ["a", "b"]
  {
    SplitNoSlash("a");
    SplitNoSlash("b");
    SplitConcat("a", "b");
    assert "a" + "/" + "b" == "a/b";
    SplitConcat("", "b");
    assert "" + "/" + "b" == "/b";
    SplitConcat("a", "/b");
    assert "a" + "/" + "/b" == "a//b";
    NonEmptyIdentity(["a"]);
    NonEmptyIdentity(["b"]);
    assert ["a", "b"] == ["a"] + ["b"] && ["a", "", "b"] == ["a"] + ["", "b"];
    NonEmptyConcat(["a"], ["b"]);
    NonEmptyConcat(["a"], ["", "b"]);
    assert ["", "b"][1..] == ["b"];
  }

  lemma Untrimmed(p: string)
    requires p != "" && !IsSpace(p[0]) && !IsSpace(p[|p| - 1])
    ensures TrimSpace(p) == p
  {
  }

  /** Writing `a/b` over a file `a` and removing `a/b` again leaves nothing of `a`. */
  lemma RemoveDoesNotUndo()
    ensures var leaf := TreeEntry("b", Regular, NEW);
            Remove(Upsert(FLAT, ["a", "b"], leaf), ["a", "b"]) != Some(FLAT)
  {
    TreesAreSound();
    assert ["a"] < ["a", "b"] && ValidName("a") && ValidName("b");
    RemoveUndoesUpsert(FLAT, ["a", "b"], TreeEntry("b", Regular, NEW));
  }

  /** Creating `a//b` is accepted and replaces the file `a/b`. */
  lemma CreateReplaces()
    ensures var e := CreateFile("a//b", NEW);
            EditTree(NESTED, e).Some? && FileAt(NESTED, ["a", "b"]) == Some(TreeEntry("b", Regular, OLD)) &&
            FileAt(EditTree(NESTED, e).value, ["a", "b"]) == Some(TreeEntry("b", Regular, NEW))
  {
    var e := CreateFile("a//b", NEW);
    TreesAreSound();
    Splits();
    Untrimmed("a//b");
    assert "" in Split(PathText(e)) by { assert ["a", "", "b"][1] == ""; }
    CreateRefusedExactly(NESTED, e);
    CreateKeepsOthersExactly(NESTED, e);
  }

  /** Creating `a/b` beside a file `a` loses `a`. */
  lemma CreateLoses()
    ensures var e := CreateFile("a/b", NEW);
            EditTree(FLAT, e).Some? && !OthersKept(FLAT, EditTree(FLAT, e).value, ["a", "b"])
  {
    var e := CreateFile("a/b", NEW);
    TreesAreSound();
    Splits();
    Untrimmed("a/b");
    assert Lookup(FLAT, ["a", "b"]).None?;
    CreateRefusedExactly(FLAT, e);
    CreateKeepsOthersExactly(FLAT, e);
    assert ["a"] < ["a", "b"];
  }

  /** Updating the directory `a` loses the file below it. */
  lemma UpdateLoses()
    ensures var e := UpdateFile("a", NEW, None);
            EditTree(NESTED, e).Some? && !OthersKept(NESTED, EditTree(NESTED, e).value, ["a"])
  {
    var e := UpdateFile("a", NEW, None);
    TreesAreSound();
    Splits();
    Untrimmed("a");
    ChangeRefusedExactly(NESTED, e);
    UpdateKeepsOthersExactly(NESTED, e);
  }

  /** Deleting the directory `a` loses the file below it. */
  lemma DeleteLoses()
    ensures var e := DeleteFile("a", None);
            EditTree(NESTED, e).Some? && !OthersKept(NESTED, EditTree(NESTED, e).value, ["a"])
  {
    var e := DeleteFile("a", None);
    TreesAreSound();
    Splits();
    Untrimmed("a");
    ChangeRefusedExactly(NESTED, e);
    DeleteKeepsOthersExactly(NESTED, e);
  }

  /** An archive with files `a` and `a/b` does not come back whole. */
  lemma ImportLoses()
    ensures var files := [ArchiveFile("a", []), ArchiveFile("a/b", [])];
            Addressable(files) && CleanPaths(files) && DistinctPaths(files) && !ImportRoundTrip.Lossless(files)
  {
    var files := [ArchiveFile("a", []), ArchiveFile("a/b", [])];
    Splits();
    assert Join(["a"]) == "a" && Join(["a", "b"]) == "a/b" by { assert ["a", "b"][1..] == ["b"]; }
    assert Segments(files[0].path) <= Segments(files[1].path);
    ImportRoundTrip.LosslessExactly(files);
  }

  /** The same archive in another order can seed another tree. */
  lemma OrderMatters()
    ensures var files := [ArchiveFile("a", []), ArchiveFile("a/b", [])];
            Addressable(files) && exists other :: multiset(other) == multiset(files) && !SeedsSame(files, other)
  {
    var files := [ArchiveFile("a", []), ArchiveFile("a/b", [])];
    Splits();
    assert files[0] in files && files[1] in files;
    OrderMattersExactly(files);
  }
}
