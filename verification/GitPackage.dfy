/** The file listing of BuildSkillPackage in internal/gitengine/pack.go, and the round
    trip from an imported archive to the package built from its tree. */
module GitPackage {
  import opened Order
  import opened GitLevel
  import opened GitTree
  import opened GitSeed
  import opened Paths

  datatype Listed = Listed(path: Path, entry: TreeEntry)

  datatype PackFile = PackFile(name: string, content: seq<bv8>)

  /** The files of one entry: a file lists itself, a directory lists its children,
      a submodule lists nothing. */
  function FlattenEntry(e: TreeEntry, prefix: Path): seq<Listed>
    decreases e, 0
  {
    if e.mode == Dir then
      (if e.hash.obj.Tree? then Flatten(e.hash.obj.entries, prefix + [e.name]) else [])
    else if e.mode == Submodule then []
    else [Listed(prefix + [e.name], e)]
  }

  /** tree.Files(): every file below these entries, in tree order. */
  function Flatten(es: seq<TreeEntry>, prefix: Path): seq<Listed>
    decreases es
  {
    if es == [] then [] else FlattenEntry(es[0], prefix) + Flatten(es[1..], prefix)
  }

  ghost predicate IsFile(es: seq<TreeEntry>, q: Path, e: TreeEntry) {
    q != [] && FileAt(es, q) == Some(e) && e.mode != Submodule
  }

  /** Looking past the first entry of a canonical level. */
  lemma FileAtTail(es: seq<TreeEntry>, q: Path)
    requires WellFormed(es) && es != [] && q != []
    ensures WellFormed(es[1..])
    ensures q[0] != es[0].name ==> FileAt(es, q) == FileAt(es[1..], q)
    ensures q[0] == es[0].name ==> FileAt(es[1..], q).None?
  {
    TailMisses(es);
  }

  lemma {:induction false} FlattenSound(es: seq<TreeEntry>, prefix: Path, x: Listed)
    requires WellFormed(es) && x in Flatten(es, prefix)
    ensures prefix < x.path && IsFile(es, x.path[|prefix|..], x.entry)
    decreases es
  {
    var e := es[0];
    FileAtTail(es, [e.name]);
    if x in FlattenEntry(e, prefix) {
      if e.mode == Dir {
        FlattenSound(e.hash.obj.entries, prefix + [e.name], x);
        var q := x.path[|prefix|..];
        assert q[0] == e.name && q[1..] == x.path[|prefix| + 1..];
      } else {
        assert x.path[|prefix|..] == [e.name];
      }
    } else {
      FlattenSound(es[1..], prefix, x);
      FileAtTail(es, x.path[|prefix|..]);
    }
  }

  lemma {:induction false} FlattenComplete(es: seq<TreeEntry>, prefix: Path, q: Path, f: TreeEntry)
    requires WellFormed(es) && IsFile(es, q, f)
    ensures Listed(prefix + q, f) in Flatten(es, prefix)
    decreases es
  {
    assert es != [];
    FileAtTail(es, q);
    var e := es[0];
    if q[0] == e.name {
      if e.mode == Dir {
        FlattenComplete(e.hash.obj.entries, prefix + [e.name], q[1..], f);
        assert prefix + [e.name] + q[1..] == prefix + q;
      } else {
        assert q == [e.name];
      }
    } else {
      FlattenComplete(es[1..], prefix, q, f);
    }
  }

  ghost predicate DistinctPaths(xs: seq<Listed>) {
    forall i, j :: 0 <= i < j < |xs| ==> xs[i].path != xs[j].path
  }

  lemma {:induction false} FlattenDistinct(es: seq<TreeEntry>, prefix: Path)
    requires WellFormed(es)
    ensures DistinctPaths(Flatten(es, prefix))
    decreases es
  {
    if es != [] {
      var e := es[0];
      FileAtTail(es, [e.name]);
      FlattenDistinct(es[1..], prefix);
      if e.mode == Dir {
        FlattenDistinct(e.hash.obj.entries, prefix + [e.name]);
      }
      var a, b := FlattenEntry(e, prefix), Flatten(es[1..], prefix);
      forall i, j | 0 <= i < |a| && 0 <= j < |b|
        ensures a[i].path != b[j].path
      {
        FlattenSound(es[1..], prefix, b[j]);
        FileAtTail(es, b[j].path[|prefix|..]);
        if e.mode == Dir {
          FlattenSound(e.hash.obj.entries, prefix + [e.name], a[i]);
        }
      }
    }
  }

  // ---- Names ----

  function NamesOf(xs: seq<Listed>): seq<string> {
    if xs == [] then [] else [Join(xs[0].path)] + NamesOf(xs[1..])
  }

  lemma {:induction false} NamesOfAt(xs: seq<Listed>)
    ensures |NamesOf(xs)| == |xs|
    ensures forall i :: 0 <= i < |xs| ==> NamesOf(xs)[i] == Join(xs[i].path)
  {
    if xs != [] {
      NamesOfAt(xs[1..]);
      forall i | 0 <= i < |xs|
        ensures NamesOf(xs)[i] == Join(xs[i].path)
      {
        assert i > 0 ==> xs[i] == xs[1..][i - 1];
      }
    }
  }

  /** The paths of files in a well-formed tree are valid, so their names split back. */
  lemma {:induction false} FilePathValid(es: seq<TreeEntry>, q: Path)
    requires WellFormed(es) && q != [] && Lookup(es, q).Some?
    ensures ValidPath(q) && Segments(Join(q)) == q
    decreases |q|
  {
    assert ValidName(q[0]);
    if |q| > 1 {
      FilePathValid(Children(Find(es, q[0]).value.hash), q[1..]);
      assert q == [q[0]] + q[1..];
    }
    SegmentsJoin(q);
  }

  /** The sorted entry names BuildSkillPackage works through. */
  function PackNames(es: seq<TreeEntry>): seq<string> {
    SortStrings(NamesOf(Flatten(es, [])))
  }

  /** The listing is sorted without repetition and names exactly the files of the tree. */
  lemma PackNamesSpec(es: seq<TreeEntry>)
    requires WellFormed(es)
    ensures StrictlySorted(PackNames(es))
    ensures forall n :: n in PackNames(es) ==>
              Join(Segments(n)) == n && exists e :: IsFile(es, Segments(n), e)
    ensures forall q, e :: IsFile(es, q, e) ==> Join(q) in PackNames(es) && Segments(Join(q)) == q
  {
    var xs := Flatten(es, []);
    NamesOfAt(xs);
    FlattenDistinct(es, []);
    forall i | 0 <= i < |xs|
      ensures IsFile(es, xs[i].path, xs[i].entry) && Segments(NamesOf(xs)[i]) == xs[i].path
    {
      FlattenSound(es, [], xs[i]);
      assert xs[i].path[0..] == xs[i].path;
      FilePathValid(es, xs[i].path);
    }
    forall i, j | 0 <= i < j < |xs|
      ensures NamesOf(xs)[i] != NamesOf(xs)[j]
    {
      assert Segments(NamesOf(xs)[i]) != Segments(NamesOf(xs)[j]);
    }
    SortStringsSpec(NamesOf(xs));
    forall n | n in PackNames(es)
      ensures Join(Segments(n)) == n && exists e :: IsFile(es, Segments(n), e)
    {
      var i :| 0 <= i < |xs| && NamesOf(xs)[i] == n;
      assert IsFile(es, Segments(n), xs[i].entry);
    }
    forall q, e | IsFile(es, q, e)
      ensures Join(q) in PackNames(es) && Segments(Join(q)) == q
    {
      FlattenComplete(es, [], q, e);
      assert [] + q == q;
      var i :| 0 <= i < |xs| && xs[i] == Listed(q, e);
      assert NamesOf(xs)[i] in NamesOf(xs);
    }
  }

  // ---- The package ----

  /** The filter on entry names. */
  predicate Skipped(name: string) {
    var clean := Clean(name);
    clean == "." || (clean != "" && clean[0] == '/') || HasDotDot(clean)
  }

  /** tree.File(name) and its content; None when the name is not a stored file. */
  function ContentOf(es: seq<TreeEntry>, name: string): Option<seq<bv8>> {
    if Segments(name) == [] then None
    else
      var f := FileAt(es, Segments(name));
      if f.Some? && f.value.hash.obj.Blob? then Some(f.value.hash.obj.content) else None
  }

  /** The zip entries for a list of names; None is a read error. */
  function PackFrom(es: seq<TreeEntry>, names: seq<string>): Option<seq<PackFile>> {
    if names == [] then Some([])
    else if Skipped(names[0]) then PackFrom(es, names[1..])
    else
      var content := ContentOf(es, names[0]);
      var rest := PackFrom(es, names[1..]);
      if content.None? || rest.None? then None
      else Some([PackFile(names[0], content.value)] + rest.value)
  }

  function Behind(out: seq<PackFile>, rest: Option<seq<PackFile>>): Option<seq<PackFile>> {
    if rest.None? then None else Some(out + rest.value)
  }

  /** The listing of the files and its sort. */
  method ListNames(es: seq<TreeEntry>) returns (names: seq<string>)
    ensures names == PackNames(es)
  {
    var files := Flatten(es, []);
    names := [];
    for i := 0 to |files|
      invariant names + NamesOf(files[i..]) == NamesOf(files)
    {
      names := names + [Join(files[i].path)];
    }
    assert names == NamesOf(files);
    names := SortStrings(names);
  }

  /** One more name behind what is packed already. */
  lemma BehindStep(es: seq<TreeEntry>, out: seq<PackFile>, names: seq<string>)
    requires names != []
    ensures Skipped(names[0]) ==> Behind(out, PackFrom(es, names)) == Behind(out, PackFrom(es, names[1..]))
    ensures !Skipped(names[0]) && ContentOf(es, names[0]).None? ==> Behind(out, PackFrom(es, names)).None?
    ensures !Skipped(names[0]) && ContentOf(es, names[0]).Some? ==>
              Behind(out, PackFrom(es, names)) ==
              Behind(out + [PackFile(names[0], ContentOf(es, names[0]).value)], PackFrom(es, names[1..]))
  {
    if !Skipped(names[0]) && ContentOf(es, names[0]).Some? && PackFrom(es, names[1..]).Some? {
      var file, rest := PackFile(names[0], ContentOf(es, names[0]).value), PackFrom(es, names[1..]).value;
      assert out + ([file] + rest) == out + [file] + rest;
    }
  }

  method PackLoop(es: seq<TreeEntry>, names: seq<string>) returns (r: Option<seq<PackFile>>)
    ensures r == PackFrom(es, names)
  {
    var out: seq<PackFile> := [];
    BehindNothing(es, names);
    for i := 0 to |names|
      invariant Behind(out, PackFrom(es, names[i..])) == PackFrom(es, names)
    {
      assert names[i..][1..] == names[i + 1..];
      BehindStep(es, out, names[i..]);
      if !Skipped(names[i]) {
        var content := ContentOf(es, names[i]);
        if content.None? {
          return None;
        }
        out := out + [PackFile(names[i], content.value)];
      }
    }
    assert out + [] == out;
    return Some(out);
  }

  lemma BehindNothing(es: seq<TreeEntry>, names: seq<string>)
    ensures names[0..] == names && Behind([], PackFrom(es, names[0..])) == PackFrom(es, names)
  {
    assert names[0..] == names;
    if PackFrom(es, names).Some? {
      assert [] + PackFrom(es, names).value == PackFrom(es, names).value;
    }
  }

  /** BuildSkillPackage, from the root tree to the zip entries. */
  method BuildPackage(es: seq<TreeEntry>) returns (r: Option<seq<PackFile>>)
    ensures r == PackFrom(es, PackNames(es))
  {
    var names := ListNames(es);
    r := PackLoop(es, names);
  }

  /** Packaging readable names drops the skipped ones and keeps the order of the rest. */
  lemma {:induction false} PackSpec(es: seq<TreeEntry>, names: seq<string>)
    requires StrictlySorted(names) && forall n :: n in names ==> ContentOf(es, n).Some?
    ensures PackFrom(es, names).Some?
    ensures var r := PackFrom(es, names).value;
            (forall i, j :: 0 <= i < j < |r| ==> StrLess(r[i].name, r[j].name)) &&
            (forall f :: f in r <==> f.name in names && !Skipped(f.name) && ContentOf(es, f.name) == Some(f.content)) &&
            ((forall n :: n in names ==> !Skipped(n)) ==> |r| == |names|)
  {
    if names != [] {
      assert names == [names[0]] + names[1..];
      PackSpec(es, names[1..]);
    }
  }

  // ---- Import, then package ----

  /** An archive path as normalizeArchiveFilePath leaves it. */
  ghost predicate CleanArchivePath(p: string) {
    Segments(p) != [] && Cleaned(Segments(p)) && Join(Segments(p)) == p
  }

  /** The name filter drops a clean path exactly when it contains two dots in a row. */
  lemma SkippedExactly(p: string)
    requires CleanArchivePath(p)
    ensures Skipped(p) <==> HasDotDot(p)
  {
    CleanedPath(Segments(p));
    JoinStartsWithHead(Segments(p));
    SplitNoSlash(".");
  }

  lemma JoinStartsWithHead(parts: seq<string>)
    requires parts != [] && parts[0] != "" && '/' !in parts[0]
    ensures Join(parts) != "" && Join(parts)[0] == parts[0][0] && Join(parts)[0] != '/'
  {
    assert parts[0][0] in parts[0];
  }

  lemma SeededContent(files: seq<ArchiveFile>, i: nat)
    requires Addressable(files) && i < |files| && Survives(files, i)
    ensures ContentOf(Seed(files), files[i].path) == Some(files[i].content)
    ensures IsFile(Seed(files), Segments(files[i].path), LeafFor(files[i]))
  {
    SeedFiles(files);
    SurvivorSeeded(files, i);
  }

  /** The file is in the archive, no later file was written at, above or below it, and its path does
      not contain two dots in a row. */
  ghost predicate Kept(files: seq<ArchiveFile>, n: string, c: seq<bv8>) {
    !HasDotDot(n) && exists i: nat :: i < |files| && files[i] == ArchiveFile(n, c) && Survives(files, i)
  }

  lemma {:induction false} PackedIsKept(files: seq<ArchiveFile>, n: string, c: seq<bv8>)
    requires Addressable(files) && forall f :: f in files ==> CleanArchivePath(f.path)
    requires WellFormed(Seed(files))
    ensures n in PackNames(Seed(files)) && !Skipped(n) && ContentOf(Seed(files), n) == Some(c) <==> Kept(files, n, c)
  {
    var es := Seed(files);
    PackNamesSpec(es);
    SeedFiles(files);
    if n in PackNames(es) {
      var e :| IsFile(es, Segments(n), e);
      var i := SeededSurvives(files, Segments(n));
      assert files[i] in files && files[i].path == n;
      SeededContent(files, i);
      SkippedExactly(n);
    }
    if i: nat :| i < |files| && files[i] == ArchiveFile(n, c) && Survives(files, i) {
      assert files[i] in files;
      SeededContent(files, i);
      SkippedExactly(n);
    }
  }

  /** Import, then package. For every archive of clean paths, the package built from the seeded tree
      is sorted by path and holds exactly the files that survive the seeding and whose path does
      not contain two dots in a row. */
  lemma ImportExactly(files: seq<ArchiveFile>)
    requires Addressable(files) && forall f :: f in files ==> CleanArchivePath(f.path)
    ensures var r := PackFrom(Seed(files), PackNames(Seed(files)));
            r.Some? &&
            (forall i, j :: 0 <= i < j < |r.value| ==> StrLess(r.value[i].name, r.value[j].name)) &&
            (forall n, c :: PackFile(n, c) in r.value <==> Kept(files, n, c))
  {
    var es := Seed(files);
    var names := PackNames(es);
    SeedFiles(files);
    PackNamesSpec(es);
    forall n | n in names
      ensures ContentOf(es, n).Some?
    {
      var i := SeededSurvives(files, Segments(n));
      assert files[i] in files && files[i].path == n;
      SeededContent(files, i);
    }
    PackSpec(es, names);
    forall n, c
      ensures PackFile(n, c) in PackFrom(es, names).value <==> Kept(files, n, c)
    {
      PackedIsKept(files, n, c);
    }
  }

  /** In particular, of a prefix-free archive only files whose path contains two dots in a row are
      missing. */
  lemma ImportThenPackage(files: seq<ArchiveFile>)
    requires Addressable(files) && PrefixFree(files)
    requires forall f :: f in files ==> CleanArchivePath(f.path)
    ensures var r := PackFrom(Seed(files), PackNames(Seed(files)));
            r.Some? && forall n, c :: PackFile(n, c) in r.value <==> ArchiveFile(n, c) in files && !HasDotDot(n)
  {
    ImportExactly(files);
    forall n, c
      ensures Kept(files, n, c) <==> ArchiveFile(n, c) in files && !HasDotDot(n)
    {
      if ArchiveFile(n, c) in files {
        var i :| 0 <= i < |files| && files[i] == ArchiveFile(n, c);
        assert Survives(files, i);
      }
    }
  }
}
