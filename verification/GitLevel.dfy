/** One directory level of a Git tree: tree entries, Git's canonical entry
    order, and the slice operations of internal/gitengine/file.go. */
module GitLevel {
  import opened Order

  /** Content addressing with an ideal hash: the hash of an object is a free
      constructor over that object. Two objects have the same hash exactly when
      they are equal, and no object can contain its own hash. */
  datatype Hash = HashOf(obj: GitObject)

  datatype GitObject =
    | Blob(content: seq<bv8>)
    | Tree(entries: seq<TreeEntry>)

  datatype Mode = Regular | Executable | Symlink | Submodule | Dir

  datatype TreeEntry = TreeEntry(name: string, mode: Mode, hash: Hash)

  const EMPTY_TREE_HASH: Hash := HashOf(Tree([]))

  /** A path segment: not empty, no separator inside. */
  predicate ValidName(name: string) {
    name != "" && '/' !in name
  }

  /** The string an entry is ordered by: directories get a trailing slash. */
  function SortKey(e: TreeEntry): string {
    if e.mode == Dir then e.name + "/" else e.name
  }

  predicate EntryLess(a: TreeEntry, b: TreeEntry) {
    StrLess(SortKey(a), SortKey(b))
  }

  ghost predicate UniqueNames(es: seq<TreeEntry>) {
    forall i, j :: 0 <= i < j < |es| ==> es[i].name != es[j].name
  }

  ghost predicate ValidNames(es: seq<TreeEntry>) {
    forall i :: 0 <= i < |es| ==> ValidName(es[i].name)
  }

  /** Strictly increasing in Git's canonical order. */
  ghost predicate Ordered(es: seq<TreeEntry>) {
    forall i, j :: 0 <= i < j < |es| ==>
      StrLess(if es[i].mode == Dir then es[i].name + "/" else es[i].name,
              if es[j].mode == Dir then es[j].name + "/" else es[j].name)
  }

  /** A directory level as Git writes it. */
  ghost predicate CanonicalLevel(es: seq<TreeEntry>) {
    ValidNames(es) && UniqueNames(es) && Ordered(es)
  }

  /** findEntryInSlice: the first entry with the given name. */
  function Find(es: seq<TreeEntry>, name: string): (r: Option<TreeEntry>)
    ensures r.Some? ==> r.value in es && r.value.name == name
    ensures r.None? ==> forall e :: e in es ==> e.name != name
  {
    if es == [] then None
    else if es[0].name == name then Some(es[0])
    else Find(es[1..], name)
  }

  lemma {:induction false} FindUnique(es: seq<TreeEntry>, i: nat)
    requires UniqueNames(es) && i < |es|
    ensures Find(es, es[i].name) == Some(es[i])
  {
    if i > 0 {
      assert es[1..][i - 1] == es[i];
      FindUnique(es[1..], i - 1);
    }
  }

  // ---- Sorting ----

  /** One step of the stable insertion used by sort.SliceStable. */
  function Insert(e: TreeEntry, es: seq<TreeEntry>): seq<TreeEntry> {
    if es == [] then [e]
    else if EntryLess(es[0], e) then [es[0]] + Insert(e, es[1..])
    else [e] + es
  }

  /** sortTreeEntries. */
  function SortEntries(es: seq<TreeEntry>): seq<TreeEntry> {
    if es == [] then [] else Insert(es[0], SortEntries(es[1..]))
  }

  lemma {:induction false} InsertKeepsElements(e: TreeEntry, es: seq<TreeEntry>)
    ensures multiset(Insert(e, es)) == multiset{e} + multiset(es)
  {
    if es != [] {
      assert es == [es[0]] + es[1..];
      InsertKeepsElements(e, es[1..]);
    }
  }

  lemma {:induction false} SortKeepsElements(es: seq<TreeEntry>)
    ensures multiset(SortEntries(es)) == multiset(es)
  {
    if es != [] {
      assert es == [es[0]] + es[1..];
      SortKeepsElements(es[1..]);
      InsertKeepsElements(es[0], SortEntries(es[1..]));
    }
  }

  /** Entries of one level with different valid names have different sort keys. */
  lemma KeysDiffer(a: TreeEntry, b: TreeEntry)
    requires ValidName(a.name) && ValidName(b.name) && a.name != b.name
    ensures SortKey(a) != SortKey(b)
  {
    var ka, kb := SortKey(a), SortKey(b);
    assert ka[|ka| - 1] == '/' <==> a.mode == Dir;
    assert kb[|kb| - 1] == '/' <==> b.mode == Dir;
    assert a.mode == Dir ==> a.name == ka[..|ka| - 1];
    assert b.mode == Dir ==> b.name == kb[..|kb| - 1];
  }

  lemma EntryTrichotomy(a: TreeEntry, b: TreeEntry)
    requires ValidName(a.name) && ValidName(b.name) && a.name != b.name
    ensures EntryLess(a, b) || EntryLess(b, a)
  {
    KeysDiffer(a, b);
    StrLessTotal(SortKey(a), SortKey(b));
  }

  lemma {:induction false} InsertIsCanonical(e: TreeEntry, es: seq<TreeEntry>)
    requires CanonicalLevel(es) && ValidName(e.name) && Find(es, e.name).None?
    ensures CanonicalLevel(Insert(e, es))
  {
    if es != [] {
      EntryTrichotomy(es[0], e);
      if EntryLess(es[0], e) {
        var rest := Insert(e, es[1..]);
        InsertIsCanonical(e, es[1..]);
        InsertKeepsElements(e, es[1..]);
        forall i | 0 <= i < |rest|
          ensures EntryLess(es[0], rest[i]) && es[0].name != rest[i].name
        {
          assert rest[i] in multiset(rest);
        }
        ConsIsCanonical(es[0], rest);
      } else {
        FirstIsCanonical(e, es);
      }
    }
  }

  lemma ConsIsCanonical(e: TreeEntry, rest: seq<TreeEntry>)
    requires CanonicalLevel(rest) && ValidName(e.name)
    requires forall i :: 0 <= i < |rest| ==> EntryLess(e, rest[i]) && e.name != rest[i].name
    ensures CanonicalLevel([e] + rest)
  {
  }

  lemma FirstIsCanonical(e: TreeEntry, es: seq<TreeEntry>)
    requires CanonicalLevel(es) && ValidName(e.name) && Find(es, e.name).None? && es != [] && EntryLess(e, es[0])
    ensures CanonicalLevel([e] + es)
  {
    forall i | 0 <= i < |es|
      ensures EntryLess(e, es[i]) && e.name != es[i].name
    {
      if i > 0 {
        StrLessTransitive(SortKey(e), SortKey(es[0]), SortKey(es[i]));
      }
    }
  }

  lemma {:induction false} SortIsCanonical(es: seq<TreeEntry>)
    requires ValidNames(es) && UniqueNames(es)
    ensures CanonicalLevel(SortEntries(es))
  {
    if es != [] {
      var rest := SortEntries(es[1..]);
      SortIsCanonical(es[1..]);
      SortKeepsElements(es[1..]);
      forall x | x in rest
        ensures x.name != es[0].name
      {
        assert x in multiset(rest);
        assert x in es[1..];
      }
      InsertIsCanonical(es[0], rest);
    }
  }

  /** Two slices with unique names and the same elements find the same entries. */
  lemma FindDependsOnElements(a: seq<TreeEntry>, b: seq<TreeEntry>, name: string)
    requires UniqueNames(a) && UniqueNames(b)
    requires multiset(a) == multiset(b)
    ensures Find(a, name) == Find(b, name)
  {
    var ra := Find(a, name);
    var rb := Find(b, name);
    if ra.Some? {
      assert ra.value in multiset(b);
      var i :| 0 <= i < |b| && b[i] == ra.value;
      FindUnique(b, i);
    } else {
      assert forall e :: e in b ==> e in multiset(b);
      assert forall e :: e in multiset(a) ==> e in a;
    }
  }

  /** A canonical level is determined by what it finds: the order leaves no choice. */
  lemma {:induction false} CanonicalLevelIsUnique(a: seq<TreeEntry>, b: seq<TreeEntry>)
    requires CanonicalLevel(a) && CanonicalLevel(b)
    requires forall n: string :: Find(a, n) == Find(b, n)
    ensures a == b
    decreases |a|
  {
    assert b != [] ==> Find(b, b[0].name).Some?;
    if a != [] {
      assert Find(a, a[0].name) == Some(a[0]);
      assert b != [];
      HeadsAgree(a, b);
      forall n: string
        ensures Find(a[1..], n) == Find(b[1..], n)
      {
        if n == a[0].name {
          TailMisses(a);
          TailMisses(b);
        } else {
          assert Find(a, n) == Find(b, n);
        }
      }
      CanonicalLevelIsUnique(a[1..], b[1..]);
      assert a == [a[0]] + a[1..] && b == [b[0]] + b[1..];
    }
  }

  lemma TailMisses(es: seq<TreeEntry>)
    requires UniqueNames(es) && es != []
    ensures Find(es[1..], es[0].name).None?
  {
    assert forall i :: 0 <= i < |es[1..]| ==> es[1..][i].name != es[0].name;
  }

  lemma HeadsAgree(a: seq<TreeEntry>, b: seq<TreeEntry>)
    requires CanonicalLevel(a) && CanonicalLevel(b) && a != [] && b != []
    requires forall n: string :: Find(a, n) == Find(b, n)
    ensures a[0] == b[0]
  {
    assert Find(a, a[0].name) == Some(a[0]);
    assert Find(b, b[0].name) == Some(b[0]);
    assert Find(b, a[0].name) == Some(a[0]);
    assert Find(a, b[0].name) == Some(b[0]);
    var i :| 0 <= i < |b| && b[i] == a[0];
    var j :| 0 <= j < |a| && a[j] == b[0];
    if i > 0 && j > 0 {
      assert EntryLess(b[0], a[0]);
      assert EntryLess(a[0], b[0]);
      StrLessTransitive(SortKey(a[0]), SortKey(b[0]), SortKey(a[0]));
      StrLessIrreflexive(SortKey(a[0]));
    }
  }

  // ---- Replacing and removing one entry ----

  /** The slice before sorting: same-named entries replaced, else `neu` appended. */
  function Substituted(es: seq<TreeEntry>, neu: TreeEntry): seq<TreeEntry> {
    if es == [] then []
    else [if es[0].name == neu.name then neu else es[0]] + Substituted(es[1..], neu)
  }

  function Placed(es: seq<TreeEntry>, neu: TreeEntry): seq<TreeEntry> {
    if Find(es, neu.name).Some? then Substituted(es, neu) else es + [neu]
  }

  /** replaceOrAppend. */
  function ReplaceOrAppend(es: seq<TreeEntry>, neu: TreeEntry): seq<TreeEntry> {
    SortEntries(Placed(es, neu))
  }

  /** removeEntryByName. */
  function RemoveByName(es: seq<TreeEntry>, name: string): seq<TreeEntry> {
    if es == [] then []
    else if es[0].name == name then RemoveByName(es[1..], name)
    else [es[0]] + RemoveByName(es[1..], name)
  }

  lemma {:induction false} SubstitutedPointwise(es: seq<TreeEntry>, neu: TreeEntry)
    ensures |Substituted(es, neu)| == |es|
    ensures forall i :: 0 <= i < |es| ==>
              Substituted(es, neu)[i] == if es[i].name == neu.name then neu else es[i]
  {
    if es != [] {
      SubstitutedPointwise(es[1..], neu);
      forall i | 0 <= i < |es|
        ensures Substituted(es, neu)[i] == if es[i].name == neu.name then neu else es[i]
      {
        if i > 0 {
          assert es[i] == es[1..][i - 1];
        }
      }
    }
  }

  lemma {:induction false} FindInSubstituted(es: seq<TreeEntry>, neu: TreeEntry, n: string)
    requires Find(es, neu.name).Some?
    ensures Find(Substituted(es, neu), n) == if n == neu.name then Some(neu) else Find(es, n)
  {
    if es[0].name == neu.name {
      if n != neu.name {
        FindAfterSubstituted(es[1..], neu, n);
      }
    } else {
      FindInSubstituted(es[1..], neu, n);
    }
  }

  lemma {:induction false} FindAfterSubstituted(es: seq<TreeEntry>, neu: TreeEntry, n: string)
    requires n != neu.name
    ensures Find(Substituted(es, neu), n) == Find(es, n)
  {
    if es != [] {
      FindAfterSubstituted(es[1..], neu, n);
    }
  }

  lemma {:induction false} FindInAppended(es: seq<TreeEntry>, neu: TreeEntry, n: string)
    requires Find(es, neu.name).None?
    ensures Find(es + [neu], n) == if n == neu.name then Some(neu) else Find(es, n)
  {
    if es != [] {
      assert (es + [neu])[1..] == es[1..] + [neu];
      FindInAppended(es[1..], neu, n);
    }
  }

  /** What replaceOrAppend does to a canonical level: it changes exactly one name,
      keeps every sibling, and leaves a canonical level. */
  lemma ReplaceOrAppendSpec(es: seq<TreeEntry>, neu: TreeEntry)
    requires CanonicalLevel(es) && ValidName(neu.name)
    ensures CanonicalLevel(ReplaceOrAppend(es, neu))
    ensures forall n: string ::
              Find(ReplaceOrAppend(es, neu), n) == if n == neu.name then Some(neu) else Find(es, n)
  {
    var placed := Placed(es, neu);
    SubstitutedPointwise(es, neu);
    assert ValidNames(placed) && UniqueNames(placed);
    SortIsCanonical(placed);
    SortKeepsElements(placed);
    forall n: string
      ensures Find(ReplaceOrAppend(es, neu), n) == if n == neu.name then Some(neu) else Find(es, n)
    {
      FindDependsOnElements(SortEntries(placed), placed, n);
      if Find(es, neu.name).Some? {
        FindInSubstituted(es, neu, n);
      } else {
        FindInAppended(es, neu, n);
      }
    }
  }

  lemma {:induction false} RemoveByNameElements(es: seq<TreeEntry>, name: string)
    ensures forall e :: e in RemoveByName(es, name) <==> e in es && e.name != name
  {
    if es != [] {
      RemoveByNameElements(es[1..], name);
      assert es == [es[0]] + es[1..];
    }
  }

  lemma {:induction false} RemoveByNameFinds(es: seq<TreeEntry>, name: string, n: string)
    ensures Find(RemoveByName(es, name), n) == if n == name then None else Find(es, n)
  {
    if es != [] {
      RemoveByNameFinds(es[1..], name, n);
    }
  }

  lemma {:induction false} RemoveByNameIsCanonical(es: seq<TreeEntry>, name: string)
    requires CanonicalLevel(es)
    ensures CanonicalLevel(RemoveByName(es, name))
  {
    if es != [] {
      RemoveByNameIsCanonical(es[1..], name);
      RemoveByNameElements(es[1..], name);
      var rest := RemoveByName(es[1..], name);
      forall i | 0 <= i < |rest|
        ensures EntryLess(es[0], rest[i]) && es[0].name != rest[i].name
      {
        var k :| 0 <= k < |es[1..]| && es[1..][k] == rest[i];
        assert es[k + 1] == rest[i];
      }
      if es[0].name != name {
        ConsIsCanonical(es[0], rest);
      }
    }
  }

  /** What removeEntryByName does to a canonical level. */
  lemma RemoveByNameSpec(es: seq<TreeEntry>, name: string)
    requires CanonicalLevel(es)
    ensures CanonicalLevel(RemoveByName(es, name))
    ensures forall n: string :: Find(RemoveByName(es, name), n) == if n == name then None else Find(es, n)
  {
    RemoveByNameIsCanonical(es, name);
    forall n: string
      ensures Find(RemoveByName(es, name), n) == if n == name then None else Find(es, n)
    {
      RemoveByNameFinds(es, name, n);
    }
  }
}
