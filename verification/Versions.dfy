/** Immutable versions of tools and model profiles: internal/data/tool.go, internal/data/model.go
    and the update of internal/biz/model.go.

    Each operation is one database transaction: it applies as a whole or not at all. */
module Versions {
  import opened Order

  type Id = nat
  type Label = nat

  datatype Key = Key(id: Id, tag: Label)

  // ---- Tool versions ----

  /** A tool definition as stored: its JSON value, and the digest of its serialized form. */
  datatype Definition = Definition(value: nat, digest: string)

  /** A version as the caller sends it. Empty `sha` and `revision` are filled in. */
  datatype Entry = Entry(tag: Label, sha: string, revision: string, definition: Definition)

  datatype VersionRow = VersionRow(value: nat, sha: string, revision: string)

  /** What to do with a version that is already stored. */
  datatype Mode = Strict | Skip

  function Sha(e: Entry): string {
    if e.sha == "" then e.definition.digest else e.sha
  }

  /** None: the code cuts twelve characters off a digest that is shorter, which aborts the write. */
  function Revision(e: Entry): Option<string> {
    if e.revision != "" then Some(e.revision)
    else if |Sha(e)| >= 12 then Some(Sha(e)[..12])
    else None
  }

  function WriteOne(rows: map<Key, VersionRow>, id: Id, e: Entry, mode: Mode): Option<map<Key, VersionRow>> {
    var key := Key(id, e.tag);
    if Revision(e).None? then None
    else if key !in rows then Some(rows[key := VersionRow(e.definition.value, Sha(e), Revision(e).value)])
    else if mode == Skip then Some(rows)
    else if rows[key].value != e.definition.value then None
    else if rows[key].sha == "" || rows[key].revision == "" then
      Some(rows[key := rows[key].(sha := Sha(e), revision := Revision(e).value)])
    else Some(rows)
  }

  /** The rows after all entries, or None when one of them aborts the transaction. */
  function WriteAll(rows: map<Key, VersionRow>, id: Id, entries: seq<Entry>, mode: Mode): Option<map<Key, VersionRow>>
    decreases |entries|
  {
    if entries == [] then Some(rows)
    else
      var earlier := WriteAll(rows, id, entries[..|entries| - 1], mode);
      if earlier.None? then None else WriteOne(earlier.value, id, entries[|entries| - 1], mode)
  }

  /** The definitions alone. */
  function Values(rows: map<Key, VersionRow>): map<Key, nat> {
    map key | key in rows :: rows[key].value
  }

  /** Every entry agrees with the stored version of its label and with every other entry of that label. */
  ghost predicate Compatible(rows: map<Key, VersionRow>, id: Id, entries: seq<Entry>) {
    (forall e :: e in entries ==> Key(id, e.tag) in rows ==> rows[Key(id, e.tag)].value == e.definition.value) &&
    (forall e, f :: e in entries && f in entries && e.tag == f.tag ==> e.definition.value == f.definition.value)
  }

  ghost predicate Writable(entries: seq<Entry>) {
    forall e :: e in entries ==> e.revision != "" || |if e.sha == "" then e.definition.digest else e.sha| >= 12
  }

  /** `after` has the stored definitions of `rows` unchanged, and the new labels with their entries' own. */
  ghost predicate Extends(rows: map<Key, VersionRow>, after: map<Key, VersionRow>, id: Id, entries: seq<Entry>) {
    (forall key :: key in after <==> key in rows || (key.id == id && exists e :: e in entries && e.tag == key.tag)) &&
    (forall key :: key in rows ==> after[key].value == rows[key].value) &&
    (forall key :: key in after && key !in rows ==>
       exists e :: e in entries && e.tag == key.tag && after[key].value == e.definition.value)
  }

  lemma ExtendsSnoc(rows: map<Key, VersionRow>, mid: map<Key, VersionRow>, after: map<Key, VersionRow>,
                    id: Id, init: seq<Entry>, e: Entry)
    requires Extends(rows, mid, id, init) && after.Keys == mid.Keys + {Key(id, e.tag)}
    requires forall key :: key in mid ==> after[key].value == mid[key].value
    requires Key(id, e.tag) !in mid ==> after[Key(id, e.tag)].value == e.definition.value
    ensures Extends(rows, after, id, init + [e])
  {
    var entries := init + [e];
    assert e in entries && forall x :: x in init ==> x in entries;
    forall key | key in after && key !in rows
      ensures exists x :: x in entries && x.tag == key.tag && after[key].value == x.definition.value
    {
      if key in mid {
        var x :| x in init && x.tag == key.tag && mid[key].value == x.definition.value;
        assert x in entries;
      }
    }
    forall key: Key | key.id == id && exists x :: x in entries && x.tag == key.tag
      ensures key in after
    {
      var x :| x in entries && x.tag == key.tag;
      assert x in init || x == e;
    }
  }

  /** A new label is stored with what was sent; an empty digest is the definition's own, and an empty
      revision the first twelve characters of the digest. */
  lemma NewRowExactly(rows: map<Key, VersionRow>, id: Id, e: Entry, mode: Mode)
    requires Key(id, e.tag) !in rows && Writable([e])
    ensures var sha := if e.sha == "" then e.definition.digest else e.sha;
            var revision := if e.revision == "" then sha[..12] else e.revision;
            WriteOne(rows, id, e, mode) == Some(rows[Key(id, e.tag) := VersionRow(e.definition.value, sha, revision)])
  {
    assert e in [e];
  }

  lemma WriteOneKeeps(rows: map<Key, VersionRow>, id: Id, e: Entry, mode: Mode)
    requires WriteOne(rows, id, e, mode).Some?
    ensures var after, key := WriteOne(rows, id, e, mode).value, Key(id, e.tag);
            after.Keys == rows.Keys + {key} &&
            (forall k :: k in rows ==> after[k].value == rows[k].value) &&
            (key !in rows ==> after[key].value == e.definition.value)
  {
  }

  /** No write of either mode changes a stored definition. */
  lemma {:induction false} WriteExtends(rows: map<Key, VersionRow>, id: Id, entries: seq<Entry>, mode: Mode)
    requires WriteAll(rows, id, entries, mode).Some?
    ensures Extends(rows, WriteAll(rows, id, entries, mode).value, id, entries)
    decreases |entries|
  {
    if entries != [] {
      var init, e := entries[..|entries| - 1], entries[|entries| - 1];
      assert entries == init + [e];
      WriteExtends(rows, id, init, mode);
      var mid := WriteAll(rows, id, init, mode).value;
      WriteOneKeeps(mid, id, e, mode);
      ExtendsSnoc(rows, mid, WriteOne(mid, id, e, mode).value, id, init, e);
    }
  }

  /** A strict write goes through exactly when nothing it sends contradicts a stored version or itself. */
  lemma {:induction false} StrictWriteExactly(rows: map<Key, VersionRow>, id: Id, entries: seq<Entry>)
    ensures WriteAll(rows, id, entries, Strict).Some? <==> Writable(entries) && Compatible(rows, id, entries)
    decreases |entries|
  {
    if entries != [] {
      var init, e := entries[..|entries| - 1], entries[|entries| - 1];
      StrictWriteExactly(rows, id, init);
      assert entries == init + [e];
      if WriteAll(rows, id, init, Strict).Some? {
        WriteExtends(rows, id, init, Strict);
        LastAgrees(rows, WriteAll(rows, id, init, Strict).value, id, init, e);
      } else {
        assert forall x :: x in init ==> x in entries;
      }
    }
  }

  lemma LastAgrees(rows: map<Key, VersionRow>, mid: map<Key, VersionRow>, id: Id, init: seq<Entry>, e: Entry)
    requires Extends(rows, mid, id, init) && Writable(init) && Compatible(rows, id, init)
    ensures Writable(init + [e]) && Compatible(rows, id, init + [e]) <==>
            Revision(e).Some? && (Key(id, e.tag) in mid ==> mid[Key(id, e.tag)].value == e.definition.value)
  {
    var key := Key(id, e.tag);
    assert forall x :: x in init + [e] <==> x in init || x == e;
    if key in mid && key !in rows {
      var x :| x in init && x.tag == key.tag && mid[key].value == x.definition.value;
      assert forall y :: y in init && y.tag == e.tag ==> y.definition.value == x.definition.value;
    } else if key in rows {
      assert forall y :: y in init && y.tag == e.tag ==> y.definition.value == rows[key].value;
    }
  }

  lemma SameValues(rows: map<Key, VersionRow>, id: Id, entries: seq<Entry>, shuffled: seq<Entry>,
                   a: map<Key, VersionRow>, b: map<Key, VersionRow>)
    requires (forall e :: e in entries <==> e in shuffled) && Compatible(rows, id, entries)
    requires Extends(rows, a, id, entries) && Extends(rows, b, id, shuffled)
    ensures forall key :: key in a ==> key in b && a[key].value == b[key].value
  {
    forall key | key in a
      ensures key in b && a[key].value == b[key].value
    {
      if key in rows {
        assert b[key].value == rows[key].value;
      } else {
        var e :| e in entries && e.tag == key.tag && a[key].value == e.definition.value;
        assert e in shuffled && key in b;
        var f :| f in shuffled && f.tag == key.tag && b[key].value == f.definition.value;
        assert f in entries;
      }
    }
  }

  /** The code ranges over a Go map: the order of the entries decides neither success nor any
      stored definition. */
  lemma StrictOrderIrrelevant(rows: map<Key, VersionRow>, id: Id, entries: seq<Entry>, shuffled: seq<Entry>)
    requires forall e :: e in entries <==> e in shuffled
    ensures var a, b := WriteAll(rows, id, entries, Strict), WriteAll(rows, id, shuffled, Strict);
            (a.Some? <==> b.Some?) && (a.Some? && b.Some? ==> Values(a.value) == Values(b.value))
  {
    StrictWriteExactly(rows, id, entries);
    StrictWriteExactly(rows, id, shuffled);
    var a, b := WriteAll(rows, id, entries, Strict), WriteAll(rows, id, shuffled, Strict);
    if a.Some? && b.Some? {
      WriteExtends(rows, id, entries, Strict);
      WriteExtends(rows, id, shuffled, Strict);
      SameValues(rows, id, entries, shuffled, a.value, b.value);
      SameValues(rows, id, shuffled, entries, b.value, a.value);
      assert Values(a.value).Keys == Values(b.value).Keys;
    }
  }

  /** A write that skips stored versions fails only on an entry without a usable revision. */
  lemma {:induction false} SkipWriteExactly(rows: map<Key, VersionRow>, id: Id, entries: seq<Entry>)
    ensures WriteAll(rows, id, entries, Skip).Some? <==> Writable(entries)
    decreases |entries|
  {
    if entries != [] {
      var init, e := entries[..|entries| - 1], entries[|entries| - 1];
      assert entries == init + [e];
      SkipWriteExactly(rows, id, init);
    }
  }

  /** Entry `f` is the first of its label. */
  ghost predicate First(entries: seq<Entry>, f: nat, tag: Label) {
    f < |entries| && entries[f].tag == tag && forall j :: 0 <= j < f ==> entries[j].tag != tag
  }

  lemma {:induction false} FirstExists(entries: seq<Entry>, i: nat) returns (f: nat)
    requires i < |entries|
    ensures First(entries, f, entries[i].tag)
  {
    f := 0;
    while entries[f].tag != entries[i].tag
      invariant f <= i && forall j :: 0 <= j < f ==> entries[j].tag != entries[i].tag
      decreases i - f
    {
      f := f + 1;
    }
  }

  /** A label keeps its stored definition, and otherwise gets the one of its first entry. */
  lemma {:induction false} SkipHolds(rows: map<Key, VersionRow>, id: Id, entries: seq<Entry>, f: nat, tag: Label)
    requires Writable(entries) && First(entries, f, tag)
    ensures WriteAll(rows, id, entries, Skip).Some?
    ensures var after, key := WriteAll(rows, id, entries, Skip).value, Key(id, tag);
            key in after &&
            after[key].value == if key in rows then rows[key].value else entries[f].definition.value
    decreases |entries|
  {
    var init, e := entries[..|entries| - 1], entries[|entries| - 1];
    assert entries == init + [e];
    SkipWriteExactly(rows, id, init);
    if f < |init| {
      SkipHolds(rows, id, init, f, tag);
    } else {
      WriteExtends(rows, id, init, Skip);
      assert forall x :: x in init ==> x.tag != tag;
    }
  }

  // ---- Model profile revisions ----

  /** A revision as the update sends it: the map key, the label in the row, the content. */
  datatype RevisionEntry = RevisionEntry(key: Label, tag: Label, content: nat)

  /** The existence test uses the map key, the insert uses the row's label. */
  function WriteRevision(rows: map<Key, nat>, id: Id, e: RevisionEntry): Option<map<Key, nat>> {
    if Key(id, e.key) in rows then Some(rows)
    else if Key(id, e.tag) in rows then None
    else Some(rows[Key(id, e.tag) := e.content])
  }

  function WriteRevisions(rows: map<Key, nat>, id: Id, entries: seq<RevisionEntry>): Option<map<Key, nat>>
    decreases |entries|
  {
    if entries == [] then Some(rows)
    else
      var earlier := WriteRevisions(rows, id, entries[..|entries| - 1]);
      if earlier.None? then None else WriteRevision(earlier.value, id, entries[|entries| - 1])
  }

  lemma {:induction false} RevisionsKept(rows: map<Key, nat>, id: Id, entries: seq<RevisionEntry>)
    requires WriteRevisions(rows, id, entries).Some?
    ensures var after := WriteRevisions(rows, id, entries).value;
            (forall key :: key in rows ==> key in after && after[key] == rows[key]) &&
            (forall e :: e in entries && e.key == e.tag ==> Key(id, e.tag) in after)
    decreases |entries|
  {
    if entries != [] {
      var init, e := entries[..|entries| - 1], entries[|entries| - 1];
      RevisionsKept(rows, id, init);
      assert entries == init + [e];
    }
  }

  // ---- Runs ----

  /** A catalog row. A soft delete keeps the row. */
  datatype Row = Row(latest: Label, deleted: bool)

  /** A tool id may have any number of deleted rows beside a live one: the index on it covers live
      rows only. A profile id has one row, deleted or not. */
  datatype State = State(
    tools: map<Id, seq<Row>>, versions: map<Key, VersionRow>,
    profiles: map<Id, Row>, revisions: map<Key, nat>)

  const EMPTY := State(map[], map[], map[], map[])

  datatype Op =
    | CreateTool(id: Id, latest: Label, entries: seq<Entry>)
    | UpdateTool(id: Id, latest: Label, entries: seq<Entry>)
    | DeleteTool(id: Id)
    | SeedBuiltin(id: Id, latest: Label, entries: seq<Entry>)
    | CreateProfile(id: Id, latest: Label, content: nat, before: seq<RevisionEntry>, after: seq<RevisionEntry>)
    | UpdateProfile(id: Id, latest: Label, content: nat, before: seq<RevisionEntry>, after: seq<RevisionEntry>)
    | DeleteProfile(id: Id)

  function RowsOf(tools: map<Id, seq<Row>>, id: Id): seq<Row> {
    if id in tools then tools[id] else []
  }

  predicate LiveTool(tools: map<Id, seq<Row>>, id: Id) {
    exists i :: 0 <= i < |RowsOf(tools, id)| && !RowsOf(tools, id)[i].deleted
  }

  predicate Live(rows: map<Id, Row>, id: Id) {
    id in rows && !rows[id].deleted
  }

  /** The rows with the latest label set, the live ones or all of them. */
  function Relabelled(rows: seq<Row>, latest: Label, all: bool): seq<Row> {
    seq(|rows|, i requires 0 <= i < |rows| => if all || !rows[i].deleted then rows[i].(latest := latest) else rows[i])
  }

  function AllDeleted(rows: seq<Row>): seq<Row> {
    seq(|rows|, i requires 0 <= i < |rows| => rows[i].(deleted := true))
  }

  function Seeded(rows: seq<Row>, latest: Label): seq<Row> {
    if rows == [] then [Row(latest, false)] else Relabelled(rows, latest, true)
  }

  function WriteTool(s: State, id: Id, rows: seq<Row>, entries: seq<Entry>, mode: Mode): State {
    var written := WriteAll(s.versions, id, entries, mode);
    if written.None? then s else s.(tools := s.tools[id := rows], versions := written.value)
  }

  /** The new revision goes in wherever the map order puts it among the others. */
  function Sent(latest: Label, content: nat, before: seq<RevisionEntry>,
                after: seq<RevisionEntry>): seq<RevisionEntry> {
    before + [RevisionEntry(latest, latest, content)] + after
  }

  function WriteProfile(s: State, id: Id, latest: Label, sent: seq<RevisionEntry>): State {
    var written := WriteRevisions(s.revisions, id, sent);
    if written.None? then s else s.(profiles := s.profiles[id := Row(latest, false)], revisions := written.value)
  }

  /** A tool id is free again once its live row is deleted; a profile id is not. Seeding adds a
      row only for an id without any, and otherwise relabels all of them, deleted ones too. */
  function Apply(s: State, op: Op): State {
    match op
    case CreateTool(id, latest, entries) =>
      if LiveTool(s.tools, id) then s else WriteTool(s, id, RowsOf(s.tools, id) + [Row(latest, false)], entries, Strict)
    case UpdateTool(id, latest, entries) =>
      if !LiveTool(s.tools, id) then s
      else WriteTool(s, id, Relabelled(RowsOf(s.tools, id), latest, false), entries, Strict)
    case DeleteTool(id) =>
      if !LiveTool(s.tools, id) then s else s.(tools := s.tools[id := AllDeleted(RowsOf(s.tools, id))])
    case SeedBuiltin(id, latest, entries) => WriteTool(s, id, Seeded(RowsOf(s.tools, id), latest), entries, Skip)
    case CreateProfile(id, latest, content, before, after) =>
      if id in s.profiles then s else WriteProfile(s, id, latest, Sent(latest, content, before, after))
    case UpdateProfile(id, latest, content, before, after) =>
      if !Live(s.profiles, id) then s else WriteProfile(s, id, latest, Sent(latest, content, before, after))
    case DeleteProfile(id) =>
      if !Live(s.profiles, id) then s else s.(profiles := s.profiles[id := s.profiles[id].(deleted := true)])
  }

  function Run(ops: seq<Op>): State
    decreases |ops|
  {
    if ops == [] then EMPTY else Apply(Run(ops[..|ops| - 1]), ops[|ops| - 1])
  }

  /** Everything stored in `s` is stored in `t` with the same definition. */
  ghost predicate Keeps(s: State, t: State) {
    (forall key :: key in s.versions ==> key in t.versions && t.versions[key].value == s.versions[key].value) &&
    (forall key :: key in s.revisions ==> key in t.revisions && t.revisions[key] == s.revisions[key])
  }

  ghost predicate LatestStored(s: State) {
    forall id :: id in s.profiles ==> Key(id, s.profiles[id].latest) in s.revisions
  }

  lemma ToolWriteKeeps(s: State, id: Id, rows: seq<Row>, entries: seq<Entry>, mode: Mode)
    ensures Keeps(s, WriteTool(s, id, rows, entries, mode))
  {
    if WriteAll(s.versions, id, entries, mode).Some? {
      WriteExtends(s.versions, id, entries, mode);
    }
  }

  lemma ProfileWriteKeeps(s: State, id: Id, latest: Label, content: nat, before: seq<RevisionEntry>,
                          after: seq<RevisionEntry>)
    ensures var t := WriteProfile(s, id, latest, Sent(latest, content, before, after));
            Keeps(s, t) && (LatestStored(s) ==> LatestStored(t))
  {
    var sent := Sent(latest, content, before, after);
    if WriteRevisions(s.revisions, id, sent).Some? {
      RevisionsKept(s.revisions, id, sent);
      assert sent[|before|] == RevisionEntry(latest, latest, content);
    }
  }

  lemma OpKeeps(s: State, op: Op)
    ensures Keeps(s, Apply(s, op))
    ensures LatestStored(s) ==> LatestStored(Apply(s, op))
  {
    match op
    case CreateTool(id, latest, entries) =>
      ToolWriteKeeps(s, id, RowsOf(s.tools, id) + [Row(latest, false)], entries, Strict);
    case UpdateTool(id, latest, entries) =>
      ToolWriteKeeps(s, id, Relabelled(RowsOf(s.tools, id), latest, false), entries, Strict);
    case SeedBuiltin(id, latest, entries) => ToolWriteKeeps(s, id, Seeded(RowsOf(s.tools, id), latest), entries, Skip);
    case CreateProfile(id, latest, content, before, after) => ProfileWriteKeeps(s, id, latest, content, before, after);
    case UpdateProfile(id, latest, content, before, after) => ProfileWriteKeeps(s, id, latest, content, before, after);
    case _ =>
  }

  /** Once stored, a definition is the same in every later state of every run. */
  lemma {:induction false} DefinitionsNeverChange(ops: seq<Op>, i: nat, j: nat)
    requires i <= j <= |ops|
    ensures Keeps(Run(ops[..i]), Run(ops[..j]))
    decreases j
  {
    if i < j {
      DefinitionsNeverChange(ops, i, j - 1);
      assert ops[..j][..j - 1] == ops[..j - 1];
      OpKeeps(Run(ops[..j - 1]), ops[j - 1]);
    }
  }

  /** In every run each profile's latest revision is stored. */
  lemma {:induction false} LatestRevisionIsStored(ops: seq<Op>)
    ensures LatestStored(Run(ops))
    decreases |ops|
  {
    if ops != [] {
      LatestRevisionIsStored(ops[..|ops| - 1]);
      OpKeeps(Run(ops[..|ops| - 1]), ops[|ops| - 1]);
    }
  }

  /** A conflicting strict write leaves every row of every table as it was. */
  lemma ConflictChangesNothing(s: State, op: Op)
    requires op.CreateTool? || op.UpdateTool?
    requires !Compatible(s.versions, op.id, op.entries)
    ensures Apply(s, op) == s
  {
    StrictWriteExactly(s.versions, op.id, op.entries);
  }

  /** Re-creating a deleted tool succeeds exactly when nothing it sends contradicts a version kept
      from its earlier life. It adds a live row beside the deleted ones, and every kept version
      stays as it was and belongs to the new tool. */
  lemma RecreateExactly(s: State, id: Id, latest: Label, entries: seq<Entry>)
    requires RowsOf(s.tools, id) != [] && forall i :: 0 <= i < |RowsOf(s.tools, id)| ==> RowsOf(s.tools, id)[i].deleted
    ensures var t := Apply(s, CreateTool(id, latest, entries));
            if Writable(entries) && Compatible(s.versions, id, entries)
            then LiveTool(t.tools, id) && RowsOf(t.tools, id) == RowsOf(s.tools, id) + [Row(latest, false)] &&
                 Extends(s.versions, t.versions, id, entries)
            else t == s
  {
    StrictWriteExactly(s.versions, id, entries);
    var t := Apply(s, CreateTool(id, latest, entries));
    if Writable(entries) && Compatible(s.versions, id, entries) {
      WriteExtends(s.versions, id, entries, Strict);
      assert !RowsOf(t.tools, id)[|RowsOf(s.tools, id)|].deleted;
    }
  }

  /** A delete hides the tool and forgets no row, label or version, and a second one does nothing. */
  lemma DeleteHidesOnly(s: State, id: Id)
    ensures var t := Apply(s, DeleteTool(id));
            !LiveTool(t.tools, id) && t.versions == s.versions && Apply(t, DeleteTool(id)) == t &&
            |RowsOf(t.tools, id)| == |RowsOf(s.tools, id)| &&
            (forall i :: 0 <= i < |RowsOf(s.tools, id)| ==>
               RowsOf(t.tools, id)[i].latest == RowsOf(s.tools, id)[i].latest) &&
            (forall other :: other != id ==> RowsOf(t.tools, other) == RowsOf(s.tools, other))
  {
  }

  /** Deleting a tool and creating it again with the versions it had brings every one of them back. */
  lemma DeleteThenRecreate(s: State, id: Id, latest: Label, entries: seq<Entry>)
    requires LiveTool(s.tools, id) && Writable(entries) && Compatible(s.versions, id, entries)
    requires forall e :: e in entries ==> Key(id, e.tag) in s.versions
    ensures var t := Apply(Apply(s, DeleteTool(id)), CreateTool(id, latest, entries));
            LiveTool(t.tools, id) && Values(t.versions) == Values(s.versions)
  {
    DeleteHidesOnly(s, id);
    var d := Apply(s, DeleteTool(id));
    RecreateExactly(d, id, latest, entries);
    var t := Apply(d, CreateTool(id, latest, entries));
    assert forall key :: key in t.versions <==> key in s.versions;
  }

  /** Deleting a profile hides it and forgets no revision; its id is not free again. */
  lemma DeletedProfileKeepsId(s: State, id: Id, latest: Label, content: nat, before: seq<RevisionEntry>,
                              after: seq<RevisionEntry>)
    requires id in s.profiles
    ensures var t := Apply(s, DeleteProfile(id));
            id in t.profiles && t.profiles[id] == Row(s.profiles[id].latest, true) && t.revisions == s.revisions &&
            Apply(t, CreateProfile(id, latest, content, before, after)) == t &&
            Apply(t, UpdateProfile(id, latest, content, before, after)) == t
  {
  }

  /** At most one row of a tool id is live. */
  ghost predicate OneLive(tools: map<Id, seq<Row>>) {
    forall id, i, j :: id in tools && 0 <= i < j < |tools[id]| ==> tools[id][i].deleted || tools[id][j].deleted
  }

  /** The deleted rows of `s` are deleted rows of `t`, in their places. */
  ghost predicate StaysDeleted(s: State, t: State) {
    forall id, i :: id in s.tools && 0 <= i < |s.tools[id]| && s.tools[id][i].deleted ==>
      id in t.tools && i < |t.tools[id]| && t.tools[id][i].deleted
  }

  /** A tool's rows keep their deleted ones and have at most one live. */
  ghost predicate RowsKept(before: seq<Row>, after: seq<Row>) {
    |before| <= |after| &&
    (forall i :: 0 <= i < |before| && before[i].deleted ==> after[i].deleted) &&
    (forall i, j :: 0 <= i < j < |after| ==> after[i].deleted || after[j].deleted)
  }

  lemma ReplacingKeepsOneLive(s: State, t: State, id: Id, rows: seq<Row>)
    requires OneLive(s.tools) && t.tools == s.tools[id := rows] && RowsKept(RowsOf(s.tools, id), rows)
    ensures OneLive(t.tools) && StaysDeleted(s, t)
  {
  }

  lemma OpKeepsOneLive(s: State, op: Op)
    requires OneLive(s.tools)
    ensures OneLive(Apply(s, op).tools) && StaysDeleted(s, Apply(s, op))
  {
    var t := Apply(s, op);
    if t.tools != s.tools {
      var before := RowsOf(s.tools, op.id);
      var rows := match op
        case CreateTool(_, latest, _) => before + [Row(latest, false)]
        case UpdateTool(_, latest, _) => Relabelled(before, latest, false)
        case SeedBuiltin(_, latest, _) => Seeded(before, latest)
        case _ => AllDeleted(before);
      assert t.tools == s.tools[op.id := rows];
      assert op.CreateTool? ==> forall i :: 0 <= i < |before| ==> before[i].deleted;
      assert RowsKept(before, rows);
      ReplacingKeepsOneLive(s, t, op.id, rows);
    }
  }

  lemma {:induction false} RunKeepsOneLive(ops: seq<Op>)
    ensures OneLive(Run(ops).tools)
    decreases |ops|
  {
    if ops != [] {
      RunKeepsOneLive(ops[..|ops| - 1]);
      OpKeepsOneLive(Run(ops[..|ops| - 1]), ops[|ops| - 1]);
    }
  }

  /** In every run at most one row of a tool id is live, and a deleted row is never revived. */
  lemma {:induction false} DeletedRowsStayDeleted(ops: seq<Op>, i: nat, j: nat)
    requires i <= j <= |ops|
    ensures OneLive(Run(ops[..j]).tools) && StaysDeleted(Run(ops[..i]), Run(ops[..j]))
    decreases j
  {
    RunKeepsOneLive(ops[..j]);
    if i < j {
      assert ops[..j][..j - 1] == ops[..j - 1];
      DeletedRowsStayDeleted(ops, i, j - 1);
      OpKeepsOneLive(Run(ops[..j - 1]), ops[j - 1]);
    }
  }

  /** Seeding a builtin skips a label that is stored, without a comparison. The label of a sent
      entry then holds the sent definition exactly when it was stored with that definition, or was
      not stored and the first entry of the label has it. A seed that cannot be written changes nothing. */
  lemma SeedStoresExactly(s: State, id: Id, latest: Label, entries: seq<Entry>, i: nat)
    requires i < |entries|
    ensures var t, key := Apply(s, SeedBuiltin(id, latest, entries)), Key(id, entries[i].tag);
            if !Writable(entries) then t == s
            else key in t.versions &&
                 (t.versions[key].value == entries[i].definition.value <==>
                  if key in s.versions then s.versions[key].value == entries[i].definition.value
                  else forall f: nat :: First(entries, f, entries[i].tag) ==>
                         entries[f].definition.value == entries[i].definition.value)
  {
    SkipWriteExactly(s.versions, id, entries);
    if Writable(entries) {
      var f := FirstExists(entries, i);
      SkipHolds(s.versions, id, entries, f, entries[i].tag);
      assert forall g: nat :: First(entries, g, entries[i].tag) ==> g == f;
    }
  }

  /** A seed stores all it sends exactly when a strict write would have accepted it. */
  lemma SeedStoresAllExactly(s: State, id: Id, latest: Label, entries: seq<Entry>)
    requires Writable(entries)
    ensures var t := Apply(s, SeedBuiltin(id, latest, entries));
            (forall e :: e in entries ==>
               Key(id, e.tag) in t.versions && t.versions[Key(id, e.tag)].value == e.definition.value)
            <==> Compatible(s.versions, id, entries)
  {
    var t := Apply(s, SeedBuiltin(id, latest, entries));
    SkipWriteExactly(s.versions, id, entries);
    WriteExtends(s.versions, id, entries, Skip);
    forall e | e in entries && Compatible(s.versions, id, entries)
      ensures Key(id, e.tag) in t.versions && t.versions[Key(id, e.tag)].value == e.definition.value
    {
      var key := Key(id, e.tag);
      assert key in t.versions;
      if key in s.versions {
        assert t.versions[key].value == s.versions[key].value;
      }
    }
  }

  /** Seeding a label again with another definition leaves the old one. */
  lemma SeedKeepsOld(e: Entry, f: Entry)
    requires Revision(e).Some? && Revision(f).Some? && e.tag == f.tag && e.definition.value != f.definition.value
    ensures var s := Apply(EMPTY, SeedBuiltin(1, 1, [e])); var t := Apply(s, SeedBuiltin(1, 1, [f]));
            Key(1, f.tag) in t.versions && t.versions[Key(1, f.tag)].value == e.definition.value
  {
    var s := Apply(EMPTY, SeedBuiltin(1, 1, [e]));
    SeedStoresExactly(EMPTY, 1, 1, [e], 0);
    SkipHolds(EMPTY.versions, 1, [e], 0, e.tag);
    SkipHolds(s.versions, 1, [f], 0, f.tag);
  }

  ghost predicate CarriedForward(rows: map<Key, nat>, id: Id, sent: seq<RevisionEntry>) {
    forall e :: e in sent ==> Key(id, e.key) in rows
  }

  /** The revisions an update carries forward from the stored profile are skipped. */
  lemma {:induction false} CarriedForwardIsSkipped(rows: map<Key, nat>, id: Id, base: seq<RevisionEntry>,
                                                   sent: seq<RevisionEntry>)
    requires WriteRevisions(rows, id, base).Some? && CarriedForward(WriteRevisions(rows, id, base).value, id, sent)
    ensures WriteRevisions(rows, id, base + sent) == WriteRevisions(rows, id, base)
    decreases |sent|
  {
    if sent == [] {
      assert base + sent == base;
    } else {
      var init := sent[..|sent| - 1];
      assert sent[|sent| - 1] in sent && forall e :: e in init ==> e in sent;
      CarriedForwardIsSkipped(rows, id, base, init);
      assert (base + sent)[..|base + sent| - 1] == base + init;
    }
  }

  lemma SentWritesOne(rows: map<Key, nat>, id: Id, e: RevisionEntry, before: seq<RevisionEntry>,
                      after: seq<RevisionEntry>)
    requires e.key == e.tag && CarriedForward(rows, id, before) && CarriedForward(rows, id, after)
    ensures WriteRevisions(rows, id, before + [e] + after) == WriteRevision(rows, id, e)
  {
    assert [] + before == before && (before + [e])[..|before + [e]| - 1] == before;
    CarriedForwardIsSkipped(rows, id, [], before);
    assert WriteRevisions(rows, id, before + [e]) == WriteRevision(rows, id, e);
    CarriedForwardIsSkipped(rows, id, before + [e], after);
  }

  /** Entry `i` of the list is inserted: its key is still free when its turn comes. */
  ghost predicate Inserted(rows: map<Key, nat>, id: Id, sent: seq<RevisionEntry>, i: nat) {
    i < |sent| && WriteRevisions(rows, id, sent[..i]).Some? &&
    Key(id, sent[i].key) !in WriteRevisions(rows, id, sent[..i]).value
  }

  /** A label holds what was stored under it, and otherwise what the inserted entry of that label sends. */
  lemma {:induction false} RevisionHolds(rows: map<Key, nat>, id: Id, sent: seq<RevisionEntry>, tag: Label)
    requires WriteRevisions(rows, id, sent).Some? && Key(id, tag) !in rows
    ensures var after := WriteRevisions(rows, id, sent).value;
            (Key(id, tag) in after <==> exists i: nat :: Inserted(rows, id, sent, i) && sent[i].tag == tag) &&
            (forall i: nat :: Inserted(rows, id, sent, i) && sent[i].tag == tag ==>
               Key(id, tag) in after && after[Key(id, tag)] == sent[i].content)
    decreases |sent|
  {
    if sent != [] {
      var n := |sent| - 1;
      var init := sent[..n];
      RevisionHolds(rows, id, init, tag);
      forall i: nat | i < n
        ensures Inserted(rows, id, sent, i) <==> Inserted(rows, id, init, i)
      {
        assert init[..i] == sent[..i];
      }
      assert Inserted(rows, id, sent, n) <==> Key(id, sent[n].key) !in WriteRevisions(rows, id, init).value;
    }
  }

  /** Another revision of the label, sent along and reached first, is inserted instead. */
  ghost predicate Preempted(rows: map<Key, nat>, id: Id, before: seq<RevisionEntry>, latest: Label, content: nat) {
    exists i: nat :: Inserted(rows, id, before, i) && before[i].tag == latest && before[i].content != content
  }

  lemma {:induction false} LaterRevisionsKeep(rows: map<Key, nat>, id: Id, sent: seq<RevisionEntry>, n: nat)
    requires n <= |sent| && WriteRevisions(rows, id, sent).Some?
    ensures WriteRevisions(rows, id, sent[..n]).Some?
    ensures forall key :: key in WriteRevisions(rows, id, sent[..n]).value ==>
              key in WriteRevisions(rows, id, sent).value &&
              WriteRevisions(rows, id, sent).value[key] == WriteRevisions(rows, id, sent[..n]).value[key]
    decreases |sent|
  {
    if n < |sent| {
      LaterRevisionsKeep(rows, id, sent[..|sent| - 1], n);
      assert sent[..|sent| - 1][..n] == sent[..n];
    } else {
      assert sent[..n] == sent;
    }
  }

  /** A list whose keys are its labels is never refused. */
  lemma {:induction false} KeyedRevisionsAccepted(rows: map<Key, nat>, id: Id, sent: seq<RevisionEntry>)
    requires forall e :: e in sent ==> e.key == e.tag
    ensures WriteRevisions(rows, id, sent).Some?
    decreases |sent|
  {
    if sent != [] {
      KeyedRevisionsAccepted(rows, id, sent[..|sent| - 1]);
    }
  }

  /** The entry is written over the list before it, and nothing after it changes its label. */
  lemma SentAt(rows: map<Key, nat>, id: Id, e: RevisionEntry, before: seq<RevisionEntry>, after: seq<RevisionEntry>)
    requires e.key == e.tag && WriteRevisions(rows, id, before + [e] + after).Some?
    ensures WriteRevisions(rows, id, before).Some?
    ensures var mid, out, key := WriteRevisions(rows, id, before).value,
                                 WriteRevisions(rows, id, before + [e] + after).value, Key(id, e.tag);
            key in out && out[key] == if key in mid then mid[key] else e.content
  {
    var sent, n := before + [e] + after, |before|;
    assert sent[..n] == before && sent[..n + 1] == before + [e] && (before + [e])[..n] == before;
    LaterRevisionsKeep(rows, id, sent, n + 1);
    LaterRevisionsKeep(rows, id, before + [e], n);
  }

  /** What the list before the entry leaves under its label. */
  lemma HeldBefore(rows: map<Key, nat>, id: Id, before: seq<RevisionEntry>, latest: Label, content: nat)
    requires WriteRevisions(rows, id, before).Some?
    ensures var mid, key := WriteRevisions(rows, id, before).value, Key(id, latest);
            (key in mid ==> mid[key] == content) <==>
            if key in rows then rows[key] == content else !Preempted(rows, id, before, latest, content)
  {
    if Key(id, latest) in rows {
      RevisionsKept(rows, id, before);
    } else {
      RevisionHolds(rows, id, before, latest);
    }
  }

  /** An update that goes through points the profile at its label. The revision of that label has
      the new content exactly when the label was stored with it, or was new and no other revision
      of it, sent along under a free key and reached first, had another content. An update whose
      revisions are keyed by their own labels goes through. */
  lemma UpdateStoresExactly(s: State, id: Id, latest: Label, content: nat, before: seq<RevisionEntry>,
                            after: seq<RevisionEntry>)
    requires Live(s.profiles, id)
    ensures var t := Apply(s, UpdateProfile(id, latest, content, before, after));
            if WriteRevisions(s.revisions, id, Sent(latest, content, before, after)).None? then t == s
            else t.profiles[id].latest == latest && Key(id, latest) in t.revisions &&
                 (t.revisions[Key(id, latest)] == content <==>
                  if Key(id, latest) in s.revisions then s.revisions[Key(id, latest)] == content
                  else !Preempted(s.revisions, id, before, latest, content))
    ensures (forall e :: e in before + after ==> e.key == e.tag) ==>
              WriteRevisions(s.revisions, id, Sent(latest, content, before, after)).Some?
  {
    if forall e :: e in before + after ==> e.key == e.tag {
      assert forall e :: e in Sent(latest, content, before, after) ==>
          e in before + after || e == RevisionEntry(latest, latest, content);
      KeyedRevisionsAccepted(s.revisions, id, Sent(latest, content, before, after));
    }
    if WriteRevisions(s.revisions, id, Sent(latest, content, before, after)).Some? {
      SentAt(s.revisions, id, RevisionEntry(latest, latest, content), before, after);
      HeldBefore(s.revisions, id, before, latest, content);
    }
  }

  /** Updating a profile with its stored revisions carried forward, as the use case does, always
      goes through, and stores the content exactly when the label was new or already had it. */
  lemma CarriedUpdateExactly(s: State, id: Id, latest: Label, content: nat, before: seq<RevisionEntry>,
                             after: seq<RevisionEntry>)
    requires Live(s.profiles, id) && CarriedForward(s.revisions, id, before) && CarriedForward(s.revisions, id, after)
    ensures var t := Apply(s, UpdateProfile(id, latest, content, before, after));
            t.profiles[id].latest == latest && Key(id, latest) in t.revisions &&
            (t.revisions[Key(id, latest)] == content <==>
             (Key(id, latest) in s.revisions ==> s.revisions[Key(id, latest)] == content))
  {
    SentWritesOne(s.revisions, id, RevisionEntry(latest, latest, content), before, after);
  }

  /** Updating a profile under the label it has leaves the old content under it. */
  lemma UpdateKeepsOld()
    ensures var s := Apply(EMPTY, CreateProfile(1, 1, 5, [], []));
            var t := Apply(s, UpdateProfile(1, 1, 6, [], []));
            Live(t.profiles, 1) && t.profiles[1].latest == 1 && Key(1, 1) in t.revisions && t.revisions[Key(1, 1)] == 5
  {
    SentWritesOne(EMPTY.revisions, 1, RevisionEntry(1, 1, 5), [], []);
    var s := Apply(EMPTY, CreateProfile(1, 1, 5, [], []));
    SentWritesOne(s.revisions, 1, RevisionEntry(1, 1, 6), [], []);
  }

  // ---- The repositories ----

  lemma {:induction false} AbortSticks(rows: map<Key, VersionRow>, id: Id, entries: seq<Entry>, mode: Mode, n: nat)
    requires n <= |entries| && WriteAll(rows, id, entries[..n], mode).None?
    ensures WriteAll(rows, id, entries, mode).None?
    decreases |entries|
  {
    if n < |entries| {
      assert entries[..|entries| - 1][..n] == entries[..n];
      AbortSticks(rows, id, entries[..|entries| - 1], mode, n);
    } else {
      assert entries[..n] == entries;
    }
  }

  /** The loop over the versions of one tool, on the transaction's view of the rows. */
  method WriteVersionRows(stored: map<Key, VersionRow>, id: Id, entries: seq<Entry>, mode: Mode)
    returns (written: Option<map<Key, VersionRow>>)
    ensures written == WriteAll(stored, id, entries, mode)
  {
    var rows, i := stored, 0;
    while i < |entries|
      invariant 0 <= i <= |entries| && WriteAll(stored, id, entries[..i], mode) == Some(rows)
    {
      var e := entries[i];
      var key := Key(id, e.tag);
      assert entries[..i + 1][..i] == entries[..i];
      if Revision(e).None? {
        AbortSticks(stored, id, entries, mode, i + 1);
        return None;
      }
      if key !in rows {
        rows := rows[key := VersionRow(e.definition.value, Sha(e), Revision(e).value)];
      } else if mode == Strict {
        if rows[key].value != e.definition.value {
          AbortSticks(stored, id, entries, mode, i + 1);
          return None;
        }
        if rows[key].sha == "" || rows[key].revision == "" {
          rows := rows[key := rows[key].(sha := Sha(e), revision := Revision(e).value)];
        }
      }
      i := i + 1;
    }
    assert entries[..i] == entries;
    return Some(rows);
  }

  /** The tool tables. Each method commits both maps or neither. */
  class ToolRepo {
    var tools: map<Id, seq<Row>>
    var versions: map<Key, VersionRow>

    ghost function View(): State
      reads this
    {
      State(tools, versions, map[], map[])
    }

    constructor ()
      ensures View() == EMPTY
    {
      tools, versions := map[], map[];
    }

    /** Refused for a live id or a version that contradicts a stored one, kept ones of a deleted
        tool included. */
    method Create(id: Id, latest: Label, entries: seq<Entry>) returns (ok: bool)
      modifies this
      ensures View() == Apply(old(View()), CreateTool(id, latest, entries))
      ensures ok <==> (forall i :: 0 <= i < |RowsOf(old(tools), id)| ==> RowsOf(old(tools), id)[i].deleted) &&
                      Writable(entries) && Compatible(old(versions), id, entries)
      ensures ok ==> RowsOf(tools, id) == RowsOf(old(tools), id) + [Row(latest, false)] &&
                     Extends(old(versions), versions, id, entries)
      ensures forall other :: other != id ==> RowsOf(tools, other) == RowsOf(old(tools), other)
      ensures !ok ==> unchanged(this)
    {
      StrictWriteExactly(versions, id, entries);
      var written := WriteVersionRows(versions, id, entries, Strict);
      ok := !LiveTool(tools, id) && written.Some?;
      if ok {
        WriteExtends(versions, id, entries, Strict);
        tools, versions := tools[id := RowsOf(tools, id) + [Row(latest, false)]], written.value;
      }
    }

    /** Refused without a live row or for a version that contradicts a stored one. The live row gets
        the new latest label. */
    method Update(id: Id, latest: Label, entries: seq<Entry>) returns (ok: bool)
      modifies this
      ensures View() == Apply(old(View()), UpdateTool(id, latest, entries))
      ensures ok <==> (exists i :: 0 <= i < |RowsOf(old(tools), id)| && !RowsOf(old(tools), id)[i].deleted) &&
                      Writable(entries) && Compatible(old(versions), id, entries)
      ensures ok ==> Extends(old(versions), versions, id, entries) &&
                     |RowsOf(tools, id)| == |RowsOf(old(tools), id)| &&
                     forall i :: 0 <= i < |RowsOf(tools, id)| ==>
                       RowsOf(tools, id)[i] == if RowsOf(old(tools), id)[i].deleted then RowsOf(old(tools), id)[i]
                                               else Row(latest, false)
      ensures forall other :: other != id ==> RowsOf(tools, other) == RowsOf(old(tools), other)
      ensures !ok ==> unchanged(this)
    {
      StrictWriteExactly(versions, id, entries);
      var written := WriteVersionRows(versions, id, entries, Strict);
      ok := LiveTool(tools, id) && written.Some?;
      if ok {
        WriteExtends(versions, id, entries, Strict);
        tools, versions := tools[id := Relabelled(RowsOf(tools, id), latest, false)], written.value;
      }
    }

    /** Goes through whatever is stored: stored versions are skipped, and the rows of the id get
        the new latest label without a deleted one coming back. */
    method UpsertBuiltin(id: Id, latest: Label, entries: seq<Entry>) returns (ok: bool)
      modifies this
      ensures View() == Apply(old(View()), SeedBuiltin(id, latest, entries))
      ensures ok <==> Writable(entries)
      ensures ok ==> Extends(old(versions), versions, id, entries)
      ensures ok ==> |RowsOf(tools, id)| > 0 && forall i :: 0 <= i < |RowsOf(tools, id)| ==>
                RowsOf(tools, id)[i].latest == latest &&
                RowsOf(tools, id)[i].deleted == (i < |RowsOf(old(tools), id)| && RowsOf(old(tools), id)[i].deleted)
      ensures ok && LiveTool(old(tools), id) ==> LiveTool(tools, id)
      ensures forall other :: other != id ==> RowsOf(tools, other) == RowsOf(old(tools), other)
      ensures !ok ==> unchanged(this)
    {
      SkipWriteExactly(versions, id, entries);
      var written := WriteVersionRows(versions, id, entries, Skip);
      ok := written.Some?;
      if ok {
        WriteExtends(versions, id, entries, Skip);
        tools, versions := tools[id := Seeded(RowsOf(tools, id), latest)], written.value;
      }
    }

    method Delete(id: Id) returns (ok: bool)
      modifies this
      ensures View() == Apply(old(View()), DeleteTool(id))
      ensures ok <==> LiveTool(old(tools), id)
      ensures !LiveTool(tools, id) && versions == old(versions)
      ensures forall other :: other != id ==> RowsOf(tools, other) == RowsOf(old(tools), other)
    {
      ok := LiveTool(tools, id);
      if ok {
        tools := tools[id := AllDeleted(RowsOf(tools, id))];
      }
    }
  }
}
