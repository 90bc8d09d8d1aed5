/** The object store and the recursive tree writers of internal/gitengine/file.go,
    as they run: loading trees by hash, storing every rewritten ancestor. */
module GitStore {
  import opened Order
  import opened GitLevel
  import opened GitTree

  // ---- Slice loops ----

  /** findEntryInSlice. */
  method FindEntryInSlice(entries: seq<TreeEntry>, name: string) returns (r: Option<TreeEntry>)
    ensures r == Find(entries, name)
  {
    for i := 0 to |entries|
      invariant Find(entries, name) == Find(entries[i..], name)
    {
      if entries[i].name == name {
        return Some(entries[i]);
      }
    }
    return None;
  }

  /** replaceOrAppend. */
  method ReplaceOrAppendLoop(entries: seq<TreeEntry>, neu: TreeEntry) returns (out: seq<TreeEntry>)
    ensures out == ReplaceOrAppend(entries, neu)
  {
    out := [];
    var replaced := false;
    for i := 0 to |entries|
      invariant |out| == i
      invariant forall k :: 0 <= k < i ==> out[k] == if entries[k].name == neu.name then neu else entries[k]
      invariant replaced <==> exists k :: 0 <= k < i && entries[k].name == neu.name
    {
      if entries[i].name == neu.name {
        out := out + [neu];
        replaced := true;
      } else {
        out := out + [entries[i]];
      }
    }
    SubstitutedPointwise(entries, neu);
    if !replaced {
      assert out == entries;
      out := out + [neu];
    } else {
      assert out == Substituted(entries, neu);
    }
    out := SortEntries(out);
  }

  /** removeEntryByName. */
  method RemoveEntryByName(entries: seq<TreeEntry>, name: string) returns (out: seq<TreeEntry>)
    ensures out == RemoveByName(entries, name)
  {
    out := [];
    for i := 0 to |entries|
      invariant out + RemoveByName(entries[i..], name) == RemoveByName(entries, name)
    {
      if entries[i].name != name {
        out := out + [entries[i]];
      }
    }
  }

  // ---- The object store ----

  type Objects = map<Hash, GitObject>

  /** Every key is the hash of its object. */
  ghost predicate ContentAddressed(objects: Objects) {
    forall h :: h in objects ==> HashOf(objects[h]) == h
  }

  /** Every tree reachable from these entries is stored. */
  ghost predicate Reachable(objects: Objects, es: seq<TreeEntry>)
    decreases es
  {
    forall e :: e in es && e.mode == Dir ==>
      e.hash in objects && e.hash.obj.Tree? && Reachable(objects, e.hash.obj.entries)
  }

  /** Objects are only ever added. */
  ghost predicate Grown(before: Objects, after: Objects) {
    forall h :: h in before ==> h in after && after[h] == before[h]
  }

  lemma {:induction false} ReachableGrows(before: Objects, after: Objects, es: seq<TreeEntry>)
    requires Reachable(before, es) && Grown(before, after)
    ensures Reachable(after, es)
    decreases es
  {
    forall e | e in es && e.mode == Dir
      ensures e.hash in after && Reachable(after, e.hash.obj.entries)
    {
      ReachableGrows(before, after, e.hash.obj.entries);
    }
  }

  lemma ReachableAfterReplace(objects: Objects, es: seq<TreeEntry>, neu: TreeEntry)
    requires Reachable(objects, es)
    requires neu.mode == Dir ==>
               neu.hash in objects && neu.hash.obj.Tree? && Reachable(objects, neu.hash.obj.entries)
    ensures Reachable(objects, ReplaceOrAppend(es, neu))
  {
    var placed := Placed(es, neu);
    SubstitutedPointwise(es, neu);
    SortKeepsElements(placed);
    forall e | e in SortEntries(placed)
      ensures e == neu || e in es
    {
      assert e in multiset(placed);
    }
  }

  lemma ReachableAfterRemove(objects: Objects, es: seq<TreeEntry>, name: string)
    requires Reachable(objects, es)
    ensures Reachable(objects, RemoveByName(es, name))
  {
    RemoveByNameElements(es, name);
  }

  class ObjectStore {
    var objects: Objects

    ghost predicate Valid()
      reads this
    {
      ContentAddressed(objects)
    }

    constructor ()
      ensures Valid() && objects == map[]
    {
      objects := map[];
    }

    /** writeBlob. */
    method WriteBlob(content: seq<bv8>) returns (h: Hash)
      requires Valid()
      modifies this
      ensures Valid() && Grown(old(objects), objects)
      ensures h == HashOf(Blob(content)) && objects == old(objects)[h := Blob(content)]
    {
      h := HashOf(Blob(content));
      objects := objects[h := Blob(content)];
    }

    /** storeTree. */
    method StoreTree(entries: seq<TreeEntry>) returns (h: Hash)
      requires Valid()
      modifies this
      ensures Valid() && Grown(old(objects), objects)
      ensures h == HashOf(Tree(entries)) && objects == old(objects)[h := Tree(entries)]
    {
      h := HashOf(Tree(entries));
      objects := objects[h := Tree(entries)];
    }

    /** loadTree; None when the object is missing or is not a tree. */
    method LoadTree(h: Hash) returns (r: Option<seq<TreeEntry>>)
      requires Valid()
      ensures r.Some? <==> h in objects && h.obj.Tree?
      ensures r.Some? ==> r.value == h.obj.entries
    {
      if h in objects && objects[h].Tree? {
        return Some(objects[h].entries);
      }
      return None;
    }

    /** upsertEntry. Whatever the store holds, objects are only added. When the trees below
        `tree` are stored it returns the hash of the tree `Upsert` describes, and that
        tree with everything below it is stored too. */
    method UpsertEntry(tree: seq<TreeEntry>, parts: Path, leaf: TreeEntry) returns (r: Option<Hash>)
      requires Valid() && parts != [] && leaf.mode != Dir
      modifies this
      ensures Valid() && Grown(old(objects), objects)
      ensures r.Some? ==> r.value == HashOf(Tree(Upsert(tree, parts, leaf))) && r.value in objects
      ensures Reachable(old(objects), tree) ==>
                r.Some? && Reachable(objects, Upsert(tree, parts, leaf))
      decreases |parts|
    {
      if |parts| == 1 {
        var newEntries := ReplaceOrAppendLoop(tree, leaf);
        var h := StoreTree(newEntries);
        if Reachable(old(objects), tree) {
          ReachableGrows(old(objects), objects, tree);
          ReachableAfterReplace(objects, tree, leaf);
        }
        return Some(h);
      }
      var dir, rest := parts[0], parts[1..];
      var child: seq<TreeEntry> := [];
      var existing := FindEntryInSlice(tree, dir);
      if existing.Some? && existing.value.mode == Dir {
        var loaded := LoadTree(existing.value.hash);
        if loaded.None? {
          return None;
        }
        child := loaded.value;
      }
      var childHash := UpsertEntry(child, rest, leaf);
      if childHash.None? {
        return None;
      }
      ghost var written := objects;
      var dirEntry := TreeEntry(dir, Dir, childHash.value);
      var newEntries := ReplaceOrAppendLoop(tree, dirEntry);
      var h := StoreTree(newEntries);
      if Reachable(old(objects), tree) {
        ReachableGrows(old(objects), objects, tree);
        ReachableGrows(written, objects, Upsert(child, rest, leaf));
        ReachableAfterReplace(objects, tree, dirEntry);
      }
      return Some(h);
    }

    /** removeEntry. Fails with None when a parent directory is missing, is a file, or is
        not stored. When the trees below `tree` are stored it agrees with `Remove`. */
    method RemoveEntry(tree: seq<TreeEntry>, parts: Path) returns (r: Option<Hash>)
      requires Valid() && parts != []
      modifies this
      ensures Valid() && Grown(old(objects), objects)
      ensures r.Some? ==>
                Remove(tree, parts).Some? &&
                r.value == HashOf(Tree(Remove(tree, parts).value)) && r.value in objects
      ensures Reachable(old(objects), tree) ==>
                (r.Some? <==> Remove(tree, parts).Some?) &&
                (r.Some? ==> Reachable(objects, Remove(tree, parts).value))
      decreases |parts|
    {
      if |parts| == 1 {
        var newEntries := RemoveEntryByName(tree, parts[0]);
        var h := StoreTree(newEntries);
        if Reachable(old(objects), tree) {
          ReachableGrows(old(objects), objects, tree);
          ReachableAfterRemove(objects, tree, parts[0]);
        }
        return Some(h);
      }
      var dir := parts[0];
      var existing := FindEntryInSlice(tree, dir);
      if existing.None? || existing.value.mode != Dir {
        return None;
      }
      var loaded := LoadTree(existing.value.hash);
      if loaded.None? {
        return None;
      }
      var childHash := RemoveEntry(loaded.value, parts[1..]);
      if childHash.None? {
        return None;
      }
      ghost var written := objects;
      var newEntries: seq<TreeEntry>;
      if childHash.value == EMPTY_TREE_HASH {
        newEntries := RemoveEntryByName(tree, dir);
      } else {
        newEntries := ReplaceOrAppendLoop(tree, TreeEntry(dir, Dir, childHash.value));
      }
      var h := StoreTree(newEntries);
      if Reachable(old(objects), tree) {
        ReachableGrows(old(objects), objects, tree);
        ReachableGrows(written, objects, childHash.value.obj.entries);
        if childHash.value == EMPTY_TREE_HASH {
          ReachableAfterRemove(objects, tree, dir);
        } else {
          ReachableAfterReplace(objects, tree, TreeEntry(dir, Dir, childHash.value));
        }
      }
      return Some(h);
    }
  }
}
