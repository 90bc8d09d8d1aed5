/** Whole trees: path lookup, upsertEntry and removeEntry of
    internal/gitengine/file.go as functions on tree entries, and the laws that
    tie hash-linked trees to a flat map from paths to files. */
module GitTree {
  import opened Order
  import opened GitLevel
  import opened Paths

  type Path = seq<string>

  /** A path after splitPath: at least one segment, every segment a valid name. */
  ghost predicate ValidPath(p: Path) {
    p != [] && forall i :: 0 <= i < |p| ==> ValidName(p[i])
  }

  ghost predicate Related(p: Path, q: Path) {
    p <= q || q <= p
  }

  /** The entries of the tree a hash names; none when it names a blob. */
  function Children(h: Hash): seq<TreeEntry> {
    if h.obj.Tree? then h.obj.entries else []
  }

  /** Canonical at every level, and every directory entry names a tree. */
  ghost predicate WellFormed(es: seq<TreeEntry>)
    decreases es
  {
    CanonicalLevel(es) &&
    forall e :: e in es && e.mode == Dir ==> e.hash.obj.Tree? && WellFormed(e.hash.obj.entries)
  }

  /** No empty directory at any level below the root. */
  ghost predicate Pruned(es: seq<TreeEntry>)
    decreases es
  {
    forall e :: e in es && e.mode == Dir ==>
      e.hash.obj.Tree? && e.hash.obj.entries != [] && Pruned(e.hash.obj.entries)
  }

  /** The entry a path names, as go-git's FindEntry resolves it. */
  function Lookup(es: seq<TreeEntry>, p: Path): Option<TreeEntry>
    requires p != []
    decreases |p|
  {
    var found := Find(es, p[0]);
    if |p| == 1 || found.None? then found
    else if found.value.mode == Dir then Lookup(Children(found.value.hash), p[1..])
    else None
  }

  /** The flat view of a tree: the file at a path, directories hidden. */
  function FileAt(es: seq<TreeEntry>, p: Path): Option<TreeEntry>
    requires p != []
  {
    var r := Lookup(es, p);
    if r.Some? && r.value.mode != Dir then r else None
  }

  // ---- Operations ----

  /** The child directory upsertEntry descends into: the existing one, or a new empty one. */
  function Descend(es: seq<TreeEntry>, dir: string): seq<TreeEntry> {
    var found := Find(es, dir);
    if found.Some? && found.value.mode == Dir then Children(found.value.hash) else []
  }

  function DirEntry(dir: string, es: seq<TreeEntry>): TreeEntry {
    TreeEntry(dir, Dir, HashOf(Tree(es)))
  }

  /** upsertEntry. */
  function Upsert(es: seq<TreeEntry>, p: Path, leaf: TreeEntry): seq<TreeEntry>
    requires p != []
    decreases |p|
  {
    if |p| == 1 then ReplaceOrAppend(es, leaf)
    else ReplaceOrAppend(es, DirEntry(p[0], Upsert(Descend(es, p[0]), p[1..], leaf)))
  }

  /** removeEntry; None is the file-not-found error. */
  function Remove(es: seq<TreeEntry>, p: Path): Option<seq<TreeEntry>>
    requires p != []
    decreases |p|
  {
    if |p| == 1 then Some(RemoveByName(es, p[0]))
    else
      var found := Find(es, p[0]);
      if found.None? || found.value.mode != Dir then None
      else
        var child := Remove(Children(found.value.hash), p[1..]);
        if child.None? then None
        else if HashOf(Tree(child.value)) == EMPTY_TREE_HASH then Some(RemoveByName(es, p[0]))
        else Some(ReplaceOrAppend(es, DirEntry(p[0], child.value)))
  }

  // ---- Recursive well-formedness, one level at a time ----

  /** An entry that may stand in a well-formed tree. */
  ghost predicate GoodEntry(e: TreeEntry) {
    ValidName(e.name) && (e.mode == Dir ==> e.hash.obj.Tree? && WellFormed(e.hash.obj.entries))
  }

  ghost predicate PrunedEntry(e: TreeEntry) {
    e.mode == Dir ==> e.hash.obj.Tree? && e.hash.obj.entries != [] && Pruned(e.hash.obj.entries)
  }

  lemma ReplaceKeepsTree(es: seq<TreeEntry>, neu: TreeEntry)
    requires WellFormed(es) && GoodEntry(neu)
    ensures WellFormed(ReplaceOrAppend(es, neu))
    ensures Pruned(es) && PrunedEntry(neu) ==> Pruned(ReplaceOrAppend(es, neu))
    ensures ReplaceOrAppend(es, neu) != []
  {
    ReplaceOrAppendSpec(es, neu);
    var out := ReplaceOrAppend(es, neu);
    assert Find(out, neu.name) == Some(neu);
    forall e | e in out
      ensures e == neu || e in es
    {
      var i :| 0 <= i < |out| && out[i] == e;
      FindUnique(out, i);
    }
  }

  lemma RemoveKeepsTree(es: seq<TreeEntry>, name: string)
    requires WellFormed(es)
    ensures WellFormed(RemoveByName(es, name))
    ensures Pruned(es) ==> Pruned(RemoveByName(es, name))
  {
    RemoveByNameSpec(es, name);
    RemoveByNameElements(es, name);
  }

  /** Every directory reached by Descend is well formed. */
  lemma DescendKeepsTree(es: seq<TreeEntry>, dir: string)
    requires WellFormed(es)
    ensures WellFormed(Descend(es, dir))
    ensures Pruned(es) ==> Pruned(Descend(es, dir))
  {
  }

  /** Lookup in a level where one entry was replaced or added. */
  lemma LookupAfterReplace(es: seq<TreeEntry>, neu: TreeEntry, q: Path)
    requires CanonicalLevel(es) && ValidName(neu.name) && q != []
    ensures Lookup(ReplaceOrAppend(es, neu), q) ==
            if q[0] != neu.name then Lookup(es, q)
            else if |q| == 1 then Some(neu)
            else if neu.mode == Dir then Lookup(Children(neu.hash), q[1..])
            else None
  {
    ReplaceOrAppendSpec(es, neu);
  }

  /** Lookup in a level where one name was removed. */
  lemma LookupAfterRemove(es: seq<TreeEntry>, name: string, q: Path)
    requires CanonicalLevel(es) && q != []
    ensures Lookup(RemoveByName(es, name), q) == if q[0] == name then None else Lookup(es, q)
  {
    RemoveByNameSpec(es, name);
  }

  /** Prefix facts about two paths with the same first segment reduce to their tails. */
  lemma TailRelations(p: Path, q: Path)
    requires p != [] && q != [] && p[0] == q[0]
    ensures q == p <==> q[1..] == p[1..]
    ensures p <= q <==> p[1..] <= q[1..]
    ensures q <= p <==> q[1..] <= p[1..]
  {
    assert p == [p[0]] + p[1..] && q == [q[0]] + q[1..];
  }

  // ---- Upsert ----

  /** A write keeps unique names and canonical order at every level, never leaves
      an empty directory behind, and always leaves a non-empty tree. */
  lemma {:induction false} UpsertWellFormed(es: seq<TreeEntry>, p: Path, leaf: TreeEntry)
    requires WellFormed(es) && ValidPath(p) && leaf.name == p[|p| - 1] && leaf.mode != Dir
    ensures WellFormed(Upsert(es, p, leaf))
    ensures Pruned(es) ==> Pruned(Upsert(es, p, leaf))
    ensures Upsert(es, p, leaf) != []
    decreases |p|
  {
    if |p| == 1 {
      ReplaceKeepsTree(es, leaf);
    } else {
      DescendKeepsTree(es, p[0]);
      UpsertWellFormed(Descend(es, p[0]), p[1..], leaf);
      ReplaceKeepsTree(es, DirEntry(p[0], Upsert(Descend(es, p[0]), p[1..], leaf)));
    }
  }

  /** What becomes of the entry at `q` when `leaf` is written at `p`. */
  ghost predicate Framed(p: Path, leaf: TreeEntry, q: Path, before: Option<TreeEntry>, after: Option<TreeEntry>) {
    (q == p ==> after == Some(leaf)) && (!Related(p, q) ==> after == before) &&
    (q < p ==> after.Some? && after.value.mode == Dir) && (p < q ==> after.None?)
  }

  lemma FramedTail(p: Path, leaf: TreeEntry, q: Path, before: Option<TreeEntry>, after: Option<TreeEntry>)
    requires |p| > 1 && |q| > 1 && p[0] == q[0] && Framed(p[1..], leaf, q[1..], before, after)
    ensures Framed(p, leaf, q, before, after)
  {
    TailRelations(p, q);
  }

  lemma FramedElsewhere(p: Path, leaf: TreeEntry, q: Path, entry: Option<TreeEntry>)
    requires p != [] && q != [] && p[0] != q[0]
    ensures Framed(p, leaf, q, entry, entry)
  {
  }

  lemma FramedAbove(p: Path, leaf: TreeEntry, q: Path, before: Option<TreeEntry>, dir: TreeEntry)
    requires |p| > 1 && |q| == 1 && p[0] == q[0] && dir.mode == Dir
    ensures Framed(p, leaf, q, before, Some(dir))
  {
  }

  lemma FramedLeaf(p: Path, leaf: TreeEntry, q: Path, before: Option<TreeEntry>)
    requires |p| == 1 && q != [] && p[0] == q[0]
    ensures Framed(p, leaf, q, before, if |q| == 1 then Some(leaf) else None)
  {
  }

  /** Looking up in a tree written below its root. */
  lemma UpsertLookup(es: seq<TreeEntry>, p: Path, leaf: TreeEntry, q: Path)
    requires WellFormed(es) && ValidPath(p) && |p| > 1 && q != []
    ensures Lookup(Upsert(es, p, leaf), q) ==
            if q[0] != p[0] then Lookup(es, q)
            else if |q| == 1 then Some(DirEntry(p[0], Upsert(Descend(es, p[0]), p[1..], leaf)))
            else Lookup(Upsert(Descend(es, p[0]), p[1..], leaf), q[1..])
  {
    LookupAfterReplace(es, DirEntry(p[0], Upsert(Descend(es, p[0]), p[1..], leaf)), q);
  }

  /** Upsert frame, on entries. The written path resolves to the new entry, and every
      path that is neither a prefix nor an extension of it resolves as before.
      Proper prefixes become directories; nothing is left below a written file. */
  lemma {:induction false} UpsertFrame(es: seq<TreeEntry>, p: Path, leaf: TreeEntry, q: Path)
    requires WellFormed(es) && ValidPath(p) && leaf.name == p[|p| - 1] && leaf.mode != Dir
    requires q != []
    ensures Framed(p, leaf, q, Lookup(es, q), Lookup(Upsert(es, p, leaf), q))
    decreases |p|
  {
    var before, after := Lookup(es, q), Lookup(Upsert(es, p, leaf), q);
    if |p| == 1 {
      LookupAfterReplace(es, leaf, q);
    } else {
      UpsertLookup(es, p, leaf, q);
    }
    if q[0] != p[0] {
      FramedElsewhere(p, leaf, q, before);
    } else if |p| == 1 {
      FramedLeaf(p, leaf, q, before);
    } else if |q| == 1 {
      FramedAbove(p, leaf, q, before, after.value);
    } else {
      DescendKeepsTree(es, p[0]);
      UpsertFrame(Descend(es, p[0]), p[1..], leaf, q[1..]);
      LookupInDescend(es, q);
      FramedTail(p, leaf, q, before, after);
    }
  }

  /** Looking up a longer path is looking up its tail in the child directory. */
  lemma LookupInDescend(es: seq<TreeEntry>, q: Path)
    requires |q| > 1
    ensures Lookup(es, q) == Lookup(Descend(es, q[0]), q[1..])
  {
    assert Find([], q[1..][0]).None?;
  }

  /** Upsert, on files: the whole flat view after a write, for every path. */
  lemma UpsertFiles(es: seq<TreeEntry>, p: Path, leaf: TreeEntry, q: Path)
    requires WellFormed(es) && ValidPath(p) && leaf.name == p[|p| - 1] && leaf.mode != Dir
    requires q != []
    ensures FileAt(Upsert(es, p, leaf), q) ==
            if q == p then Some(leaf) else if Related(p, q) then None else FileAt(es, q)
  {
    UpsertFrame(es, p, leaf, q);
    assert Related(p, q) ==> q == p || q < p || p < q;
  }

  // ---- Remove ----

  /** Every proper prefix of the path is a directory. */
  predicate ParentsAreDirs(es: seq<TreeEntry>, p: Path)
    requires p != []
    decreases |p|
  {
    |p| == 1 ||
    (var found := Find(es, p[0]);
     found.Some? && found.value.mode == Dir && ParentsAreDirs(Children(found.value.hash), p[1..]))
  }

  /** A delete fails exactly when some parent is missing or is a file; otherwise the
      tree stays well formed and no directory is left empty. */
  lemma {:induction false} RemoveWellFormed(es: seq<TreeEntry>, p: Path)
    requires WellFormed(es) && ValidPath(p)
    ensures Remove(es, p).Some? <==> ParentsAreDirs(es, p)
    ensures Remove(es, p).Some? ==> WellFormed(Remove(es, p).value)
    ensures Remove(es, p).Some? && Pruned(es) ==> Pruned(Remove(es, p).value)
    decreases |p|
  {
    if |p| == 1 {
      RemoveKeepsTree(es, p[0]);
    } else {
      var found := Find(es, p[0]);
      if found.Some? && found.value.mode == Dir {
        RemoveWellFormed(Children(found.value.hash), p[1..]);
        var child := Remove(Children(found.value.hash), p[1..]);
        if child.Some? {
          RemoveKeepsTree(es, p[0]);
          ReplaceKeepsTree(es, DirEntry(p[0], child.value));
        }
      }
    }
  }

  /** Looking up in a tree with something removed below its root. */
  lemma RemoveLookup(es: seq<TreeEntry>, p: Path, q: Path)
    requires WellFormed(es) && ValidPath(p) && |p| > 1 && q != [] && Remove(es, p).Some?
    ensures Remove(Descend(es, p[0]), p[1..]).Some? && Find(es, p[0]).Some? && Find(es, p[0]).value.mode == Dir
    ensures var child := Remove(Descend(es, p[0]), p[1..]).value;
            Lookup(Remove(es, p).value, q) ==
            if q[0] != p[0] then Lookup(es, q)
            else if child == [] then None
            else if |q| == 1 then Some(DirEntry(p[0], child))
            else Lookup(child, q[1..])
  {
    LookupAfterRemove(es, p[0], q);
    LookupAfterReplace(es, DirEntry(p[0], Remove(Descend(es, p[0]), p[1..]).value), q);
  }

  /** Delete frame: the path and everything under it are gone; every path that is
      neither a prefix nor an extension of it resolves as before. */
  lemma {:induction false} RemoveFrame(es: seq<TreeEntry>, p: Path, q: Path)
    requires WellFormed(es) && ValidPath(p) && Remove(es, p).Some? && q != []
    ensures p <= q ==> Lookup(Remove(es, p).value, q).None?
    ensures !Related(p, q) ==> Lookup(Remove(es, p).value, q) == Lookup(es, q)
    ensures q < p ==> FileAt(Remove(es, p).value, q).None? && FileAt(es, q).None?
    decreases |p|
  {
    if |p| == 1 {
      LookupAfterRemove(es, p[0], q);
      assert q[0] == p[0] ==> p <= q;
    } else {
      RemoveLookup(es, p, q);
      if q[0] == p[0] {
        TailRelations(p, q);
        if |q| > 1 {
          DescendKeepsTree(es, p[0]);
          RemoveFrame(Descend(es, p[0]), p[1..], q[1..]);
          LookupInDescend(es, q);
        }
      }
    }
  }

  /** Remove, on files: the whole flat view after a delete, for every path. */
  lemma RemoveFiles(es: seq<TreeEntry>, p: Path, q: Path)
    requires WellFormed(es) && ValidPath(p) && Remove(es, p).Some? && q != []
    ensures FileAt(Remove(es, p).value, q) == if p <= q then None else FileAt(es, q)
  {
    RemoveFrame(es, p, q);
  }

  // ---- Canonical form ----

  ghost predicate SameFiles(a: seq<TreeEntry>, b: seq<TreeEntry>) {
    forall q: Path :: q != [] ==> FileAt(a, q) == FileAt(b, q)
  }

  /** A non-empty pruned tree holds at least one file. */
  lemma {:induction false} SomeFile(es: seq<TreeEntry>) returns (q: Path)
    requires WellFormed(es) && Pruned(es) && es != []
    ensures q != [] && FileAt(es, q).Some?
    decreases es
  {
    var e := es[0];
    if e.mode == Dir {
      var below := SomeFile(e.hash.obj.entries);
      q := [e.name] + below;
      assert q[1..] == below;
    } else {
      q := [e.name];
    }
  }

  lemma SameFilesBelow(a: seq<TreeEntry>, b: seq<TreeEntry>, n: string)
    requires SameFiles(a, b)
    ensures SameFiles(Descend(a, n), Descend(b, n))
  {
    forall q: Path | q != []
      ensures FileAt(Descend(a, n), q) == FileAt(Descend(b, n), q)
    {
      var full := [n] + q;
      assert full[1..] == q;
      LookupInDescend(a, full);
      LookupInDescend(b, full);
      assert FileAt(a, full) == FileAt(b, full);
    }
  }

  /** A name that is a directory on one side is a directory on the other. */
  lemma DirsAgree(a: seq<TreeEntry>, b: seq<TreeEntry>, n: string)
    requires WellFormed(a) && WellFormed(b) && Pruned(a) && Pruned(b) && SameFiles(a, b)
    requires Find(a, n).Some? && Find(a, n).value.mode == Dir
    ensures Find(b, n).Some? && Find(b, n).value.mode == Dir
  {
    var q := SomeFile(Find(a, n).value.hash.obj.entries);
    var full := [n] + q;
    assert full[1..] == q;
    assert FileAt(a, full).Some?;
    assert FileAt(b, full).Some?;
  }

  /** Canonical form: two well-formed trees without empty directories that resolve
      every path to the same file are the same tree, so they have the same hash. */
  lemma {:induction false} CanonicalForm(a: seq<TreeEntry>, b: seq<TreeEntry>)
    requires WellFormed(a) && WellFormed(b) && Pruned(a) && Pruned(b)
    requires SameFiles(a, b)
    ensures a == b
    ensures HashOf(Tree(a)) == HashOf(Tree(b))
    decreases a
  {
    forall n: string
      ensures Find(a, n) == Find(b, n)
    {
      assert FileAt(a, [n]) == FileAt(b, [n]);
      if Find(a, n).Some? && Find(a, n).value.mode == Dir {
        DirsAgree(a, b, n);
        SameFilesBelow(a, b, n);
        CanonicalForm(Find(a, n).value.hash.obj.entries, Find(b, n).value.hash.obj.entries);
      } else if Find(b, n).Some? && Find(b, n).value.mode == Dir {
        DirsAgree(b, a, n);
      }
    }
    CanonicalLevelIsUnique(a, b);
  }

  // ---- Remove undoes create ----

  /** No proper prefix of the path is a file. */
  ghost predicate NoFileAbove(es: seq<TreeEntry>, p: Path) {
    forall q: Path :: q != [] && q < p ==> FileAt(es, q).None?
  }

  /** After a write the parents are directories, so the same path can be deleted. */
  lemma {:induction false} UpsertMakesParents(es: seq<TreeEntry>, p: Path, leaf: TreeEntry)
    requires WellFormed(es) && ValidPath(p) && leaf.name == p[|p| - 1] && leaf.mode != Dir
    ensures ParentsAreDirs(Upsert(es, p, leaf), p)
    decreases |p|
  {
    if |p| > 1 {
      var child := Descend(es, p[0]);
      DescendKeepsTree(es, p[0]);
      UpsertMakesParents(child, p[1..], leaf);
      UpsertWellFormed(child, p[1..], leaf);
      ReplaceOrAppendSpec(es, DirEntry(p[0], Upsert(child, p[1..], leaf)));
    }
  }

  /** Below a path that resolves to nothing there is nothing. */
  lemma {:induction false} NothingBelowMissing(es: seq<TreeEntry>, p: Path, q: Path)
    requires p != [] && p <= q && Lookup(es, p).None?
    ensures Lookup(es, q).None?
    decreases |p|
  {
    if |p| > 1 && Find(es, p[0]).Some? && Find(es, p[0]).value.mode == Dir {
      NothingBelowMissing(Children(Find(es, p[0]).value.hash), p[1..], q[1..]);
    }
  }

  /** Deleting a path just written restores the original root hash exactly when the
      path was fresh and no file stood where one of its parent directories goes. */
  lemma RemoveUndoesUpsert(es: seq<TreeEntry>, p: Path, leaf: TreeEntry)
    requires WellFormed(es) && Pruned(es) && ValidPath(p) && leaf.name == p[|p| - 1] && leaf.mode != Dir
    ensures Remove(Upsert(es, p, leaf), p).Some?
    ensures Remove(Upsert(es, p, leaf), p) == Some(es) <==> Lookup(es, p).None? && NoFileAbove(es, p)
  {
    var up := Upsert(es, p, leaf);
    UpsertWellFormed(es, p, leaf);
    UpsertMakesParents(es, p, leaf);
    RemoveWellFormed(up, p);
    var out := Remove(up, p).value;
    RemoveFrame(up, p, p);
    forall q: Path | q != []
      ensures FileAt(out, q) == if Related(p, q) then None else FileAt(es, q)
    {
      RemoveFiles(up, p, q);
      UpsertFiles(es, p, leaf, q);
    }
    if Lookup(es, p).None? && NoFileAbove(es, p) {
      forall q: Path | q != []
        ensures FileAt(out, q) == FileAt(es, q)
      {
        if p <= q {
          NothingBelowMissing(es, p, q);
        }
      }
      CanonicalForm(out, es);
    }
  }

  lemma SegmentsAreValid(p: string)
    requires Segments(p) != []
    ensures ValidPath(Segments(p))
  {
    forall i | 0 <= i < |Segments(p)|
      ensures ValidName(Segments(p)[i])
    {
      assert Segments(p)[i] in Split(p);
    }
  }
}
