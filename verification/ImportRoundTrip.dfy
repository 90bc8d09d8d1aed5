/** From an uploaded archive to the repository's first tree and back to a package: the parser of
    internal/biz/skill_archive.go, the tree of internal/gitengine/engine.go and the package of
    internal/gitengine/pack.go together. */
module ImportRoundTrip {
  import opened Order
  import opened Paths
  import opened GitTree
  import opened GitSeed
  import GitPackage
  import opened SkillArchive

  ghost function Package(files: seq<ArchiveFile>): Option<seq<GitPackage.PackFile>>
    requires Addressable(files)
  {
    GitPackage.PackFrom(Seed(files), GitPackage.PackNames(Seed(files)))
  }

  /** Every file of the archive is in the package. */
  ghost predicate Lossless(files: seq<ArchiveFile>)
    requires Addressable(files)
  {
    Package(files).Some? && forall f :: f in files ==> GitPackage.PackFile(f.path, f.content) in Package(files).value
  }

  /** Distinct clean paths have distinct segments. */
  lemma DistinctSegments(files: seq<ArchiveFile>, i: nat, j: nat)
    requires CleanPaths(files) && DistinctPaths(files) && i < |files| && j < |files| && i != j
    ensures Segments(files[i].path) != Segments(files[j].path)
  {
    assert files[i] in files && files[j] in files;
    assert files[i].path != files[j].path by {
      if i < j {
        assert files[i].path != files[j].path;
      } else {
        assert files[j].path != files[i].path;
      }
    }
  }

  /** A file that another one meets does not survive, or the other one does not. */
  lemma OneIsLost(files: seq<ArchiveFile>, i: nat, j: nat) returns (lost: nat)
    requires Addressable(files) && CleanPaths(files) && DistinctPaths(files) && i < j < |files|
    requires Related(Segments(files[i].path), Segments(files[j].path))
    ensures lost < |files| && !GitPackage.Kept(files, files[lost].path, files[lost].content)
  {
    lost := i;
    forall k: nat | k < |files| && files[k] == files[i]
      ensures k == i
    {
      if k != i {
        DistinctSegments(files, k, i);
      }
    }
    assert !Survives(files, i);
  }

  /** A package of distinct clean paths holds the whole archive exactly when no path is a prefix of
      another and none contains two dots in a row. */
  lemma LosslessExactly(files: seq<ArchiveFile>)
    requires Addressable(files) && CleanPaths(files) && DistinctPaths(files)
    ensures Lossless(files) <==> PrefixFree(files) && forall f :: f in files ==> !HasDotDot(f.path)
  {
    GitPackage.ImportExactly(files);
    assert Lossless(files) <==> forall f :: f in files ==> GitPackage.Kept(files, f.path, f.content) by {
      assert forall f :: f in files ==>
        (GitPackage.PackFile(f.path, f.content) in Package(files).value <==> GitPackage.Kept(files, f.path, f.content));
    }
    if PrefixFree(files) {
      GitPackage.ImportThenPackage(files);
    } else {
      var i, j :| 0 <= i < |files| && 0 <= j < |files| && i != j && Segments(files[i].path) <= Segments(files[j].path);
      var lost := OneIsLost(files, if i < j then i else j, if i < j then j else i);
      assert files[lost] in files;
    }
  }

  /** Uploading an archive, creating the repository from it and packaging the first commit returns
      every file of the archive under its normalized path exactly when no normalized path is a
      prefix of another and none contains two dots in a row. Whatever is missing then, nothing
      else is in the package. */
  lemma UploadThenPackage(entries: seq<ZipEntry>, limits: Limits)
    requires Accepted(entries, NormalizedLimits(limits)) && RootNormalized(KeptFiles(entries)).Ok?
    ensures var files := RootNormalized(KeptFiles(entries)).value;
            Addressable(files) &&
            (Lossless(files) <==> PrefixFree(files) && forall f :: f in files ==> !HasDotDot(f.path)) &&
            Package(files).Some? &&
            forall n, c :: GitPackage.PackFile(n, c) in Package(files).value ==> ArchiveFile(n, c) in files
  {
    var kept := KeptFiles(entries);
    var files := RootNormalized(kept).value;
    KeptFilesClean(entries);
    KeptFilesDistinct(entries, NormalizedLimits(limits), |entries|);
    assert entries[..|entries|] == entries;
    RootNormalizedSpec(kept);
    RootNormalizedStaysClean(kept);
    LosslessExactly(files);
    GitPackage.ImportExactly(files);
  }
}
