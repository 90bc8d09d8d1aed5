/** Merging the skills an agent binds directly and through skill sets into one snapshot list:
    internal/server/agent_http_resolver.go. */
module SkillSnapshots {
  import opened Order

  /** A resolved skill. `viaSkillSet` is present on entries that come from a skill set. `payload`
      stands for the fields the merge does not look at. */
  datatype Entry = Entry(name: string, version: string, revision: string, source: string,
                         viaSkillSet: Option<string>, payload: nat)

  datatype Release = Release(version: string, revision: string, source: string)

  function NameOf(e: Entry): string {
    TrimSpace(e.name)
  }

  function ReleaseOf(e: Entry): Release {
    Release(TrimSpace(e.version), TrimSpace(e.revision), TrimSpace(e.source))
  }

  /** All entries of one name are the same release. */
  ghost predicate Agree(entries: seq<Entry>) {
    forall i, j :: 0 <= i < |entries| && 0 <= j < |entries| &&
                   TrimSpace(entries[i].name) == TrimSpace(entries[j].name) ==>
      TrimSpace(entries[i].version) == TrimSpace(entries[j].version) &&
      TrimSpace(entries[i].revision) == TrimSpace(entries[j].revision) &&
      TrimSpace(entries[i].source) == TrimSpace(entries[j].source)
  }

  /** The names in the order in which they first appear. */
  function FirstSeen(entries: seq<Entry>): seq<string> {
    if entries == [] then []
    else
      var earlier := FirstSeen(entries[..|entries| - 1]);
      var name := NameOf(entries[|entries| - 1]);
      if name in earlier then earlier else earlier + [name]
  }

  /** The index of the entry that stands for a name: its last direct one, else its first. */
  ghost predicate Stands(entries: seq<Entry>, name: string, k: nat) {
    k < |entries| && NameOf(entries[k]) == name &&
    if entries[k].viaSkillSet.None? then
      forall j :: k < j < |entries| && NameOf(entries[j]) == name ==> entries[j].viaSkillSet.Some?
    else
      (forall j :: 0 <= j < k ==> NameOf(entries[j]) != name) &&
      (forall j :: 0 <= j < |entries| && NameOf(entries[j]) == name ==> entries[j].viaSkillSet.Some?)
  }

  /** A merged list: one entry per name in first-seen order, each the one that stands for its name. */
  ghost predicate Merged(entries: seq<Entry>, out: seq<Entry>) {
    |out| == |FirstSeen(entries)| &&
    forall n :: 0 <= n < |out| ==> StandsFor(entries, FirstSeen(entries)[n], out[n])
  }

  ghost predicate StandsFor(entries: seq<Entry>, name: string, e: Entry) {
    exists k: nat :: Stands(entries, name, k) && entries[k] == e
  }

  ghost predicate HasName(entries: seq<Entry>, name: string) {
    exists k :: 0 <= k < |entries| && NameOf(entries[k]) == name
  }

  ghost predicate Indexed(names: seq<string>, byName: map<string, nat>) {
    (forall name :: name in byName <==> name in names) &&
    (forall name :: name in byName ==> byName[name] < |names| && names[byName[name]] == name)
  }

  lemma HasNameSnoc(init: seq<Entry>, e: Entry, name: string)
    ensures HasName(init + [e], name) <==> HasName(init, name) || NameOf(e) == name
  {
    var entries := init + [e];
    if k :| 0 <= k < |init| && NameOf(init[k]) == name {
      assert NameOf(entries[k]) == name;
    }
    assert entries[|init|] == e;
  }

  lemma {:induction false} FirstSeenSpec(entries: seq<Entry>)
    ensures NoDup(FirstSeen(entries))
    ensures forall name :: name in FirstSeen(entries) <==> HasName(entries, name)
  {
    if entries != [] {
      var init, last := entries[..|entries| - 1], entries[|entries| - 1];
      FirstSeenSpec(init);
      assert entries == init + [last];
      forall name
        ensures name in FirstSeen(entries) <==> HasName(entries, name)
      {
        HasNameSnoc(init, last, name);
      }
    }
  }

  /** What one more entry does to the entry that stands for a name. */
  lemma StandsSnoc(init: seq<Entry>, e: Entry, name: string, k: nat)
    requires Stands(init, name, k)
    ensures NameOf(e) != name || e.viaSkillSet.Some? ==> Stands(init + [e], name, k)
    ensures NameOf(e) == name && e.viaSkillSet.None? ==> Stands(init + [e], name, |init|)
  {
  }

  lemma StandsFresh(init: seq<Entry>, e: Entry)
    requires NameOf(e) !in FirstSeen(init)
    ensures StandsFor(init + [e], NameOf(e), e)
  {
    FirstSeenSpec(init);
    assert !HasName(init, NameOf(e));
    assert (init + [e])[|init|] == e;
    assert Stands(init + [e], NameOf(e), |init|);
  }

  lemma StandsForSnoc(init: seq<Entry>, e: Entry, name: string, was: Entry)
    requires StandsFor(init, name, was)
    ensures StandsFor(init + [e], name, if NameOf(e) == name && e.viaSkillSet.None? then e else was)
  {
    var k: nat :| Stands(init, name, k) && init[k] == was;
    StandsSnoc(init, e, name, k);
    assert (init + [e])[|init|] == e && (init + [e])[k] == was;
  }

  lemma FirstSeenSnoc(init: seq<Entry>, e: Entry)
    ensures FirstSeen(init + [e]) ==
            if NameOf(e) in FirstSeen(init) then FirstSeen(init) else FirstSeen(init) + [NameOf(e)]
  {
    assert (init + [e])[..|init|] == init;
  }

  /** The list after one more entry of a name not seen before. */
  lemma MergedFresh(init: seq<Entry>, out: seq<Entry>, e: Entry)
    requires Merged(init, out) && NameOf(e) !in FirstSeen(init)
    ensures Merged(init + [e], out + [e])
  {
    var names := FirstSeen(init + [e]);
    FirstSeenSnoc(init, e);
    forall n | 0 <= n < |out + [e]|
      ensures StandsFor(init + [e], names[n], (out + [e])[n])
    {
      if n < |out| {
        assert names[n] == FirstSeen(init)[n];
        StandsForSnoc(init, e, names[n], out[n]);
      } else {
        StandsFresh(init, e);
      }
    }
  }

  /** The list after one more entry of a known name: a direct entry replaces the old one. */
  lemma MergedKnown(init: seq<Entry>, out: seq<Entry>, e: Entry, n: nat)
    requires Merged(init, out) && n < |out| && FirstSeen(init)[n] == NameOf(e)
    ensures Merged(init + [e], if e.viaSkillSet.Some? then out else out[n := e])
  {
    FirstSeenSnoc(init, e);
    FirstSeenSpec(init);
    forall m | 0 <= m < |out|
      ensures StandsFor(init + [e], FirstSeen(init)[m], if m == n && e.viaSkillSet.None? then e else out[m])
    {
      StandsForSnoc(init, e, FirstSeen(init)[m], out[m]);
    }
  }

  lemma AgreeSnoc(init: seq<Entry>, e: Entry, k: nat)
    requires Agree(init) && k < |init| && NameOf(init[k]) == NameOf(e)
    ensures Agree(init + [e]) <==> ReleaseOf(init[k]) == ReleaseOf(e)
  {
    var entries := init + [e];
    assert entries[k] == init[k] && entries[|init|] == e;
  }

  lemma AgreeFresh(init: seq<Entry>, e: Entry)
    requires Agree(init) && NameOf(e) !in FirstSeen(init)
    ensures Agree(init + [e])
  {
    FirstSeenSpec(init);
  }

  lemma AgreePrefix(entries: seq<Entry>, n: nat)
    requires n <= |entries| && Agree(entries)
    ensures Agree(entries[..n])
  {
  }

  /** One entry into the list. None is the version conflict. */
  method Append(out: seq<Entry>, byName: map<string, nat>, e: Entry, ghost before: seq<Entry>)
    returns (merged: Option<seq<Entry>>, index: map<string, nat>)
    requires Agree(before) && Merged(before, out) && Indexed(FirstSeen(before), byName)
    ensures merged.Some? <==> Agree(before + [e])
    ensures merged.Some? ==> Merged(before + [e], merged.value) && Indexed(FirstSeen(before + [e]), index)
  {
    var name := NameOf(e);
    if name in byName {
      var n := byName[name];
      assert StandsFor(before, FirstSeen(before)[n], out[n]);
      ghost var k: nat :| Stands(before, FirstSeen(before)[n], k) && before[k] == out[n];
      AgreeSnoc(before, e, k);
      if ReleaseOf(out[n]) != ReleaseOf(e) {
        return None, byName;
      }
      FirstSeenSnoc(before, e);
      MergedKnown(before, out, e, n);
      if e.viaSkillSet.Some? {
        return Some(out), byName;
      }
      return Some(out[n := e]), byName;
    }
    FirstSeenSnoc(before, e);
    MergedFresh(before, out, e);
    AgreeFresh(before, e);
    return Some(out + [e]), byName[name := |out|];
  }

  /** The merge succeeds exactly when entries of one name agree on their release, and then returns
      one entry per name in first-seen order, a direct entry before one from a skill set. */
  method MergeSnapshots(entries: seq<Entry>) returns (merged: Option<seq<Entry>>)
    ensures merged.Some? <==> Agree(entries)
    ensures merged.Some? ==> Merged(entries, merged.value)
  {
    var out: seq<Entry> := [];
    var byName: map<string, nat> := map[];
    var i := 0;
    while i < |entries|
      invariant 0 <= i <= |entries|
      invariant Agree(entries[..i]) && Merged(entries[..i], out) && Indexed(FirstSeen(entries[..i]), byName)
    {
      assert entries[..i + 1] == entries[..i] + [entries[i]];
      var next;
      next, byName := Append(out, byName, entries[i], entries[..i]);
      if next.None? {
        assert !Agree(entries) by {
          if Agree(entries) {
            AgreePrefix(entries, i + 1);
          }
        }
        return None;
      }
      out, i := next.value, i + 1;
    }
    assert entries[..i] == entries;
    return Some(out);
  }

  ghost predicate HasDirect(entries: seq<Entry>, name: string) {
    exists e :: e in entries && NameOf(e) == name && e.viaSkillSet.None?
  }

  /** The release pinned for a name, and whether it is a direct binding. */
  ghost predicate Pins(out: seq<Entry>, name: string, release: Release, direct: bool) {
    exists e :: e in out && NameOf(e) == name && ReleaseOf(e) == release && (e.viaSkillSet.None? <==> direct)
  }

  lemma MergedPins(entries: seq<Entry>, out: seq<Entry>, name: string, release: Release, direct: bool)
    requires Agree(entries) && Merged(entries, out)
    ensures Pins(out, name, release, direct) <==>
            (exists e :: e in entries && NameOf(e) == name && ReleaseOf(e) == release) &&
            (HasDirect(entries, name) <==> direct)
  {
    forall e | e in out && NameOf(e) == name
      ensures e in entries && (HasDirect(entries, name) <==> e.viaSkillSet.None?)
    {
      var n :| 0 <= n < |out| && out[n] == e;
      StandingEntry(entries, FirstSeen(entries)[n], e);
    }
    if e :| e in entries && NameOf(e) == name && ReleaseOf(e) == release {
      var i :| 0 <= i < |entries| && entries[i] == e;
      FirstSeenSpec(entries);
      assert HasName(entries, name);
      var n :| 0 <= n < |out| && FirstSeen(entries)[n] == name;
      StandingEntry(entries, name, out[n]);
      var k :| 0 <= k < |entries| && entries[k] == out[n];
      assert out[n] in out && ReleaseOf(entries[k]) == ReleaseOf(entries[i]);
    }
  }

  lemma StandingEntry(entries: seq<Entry>, name: string, e: Entry)
    requires StandsFor(entries, name, e)
    ensures e in entries && NameOf(e) == name && (HasDirect(entries, name) <==> e.viaSkillSet.None?)
  {
  }

  /** The order of the bindings decides neither the outcome, nor the pinned release of any name,
      nor whether it counts as a direct binding. */
  lemma MergeOrderIrrelevant(entries: seq<Entry>, shuffled: seq<Entry>, out: seq<Entry>, other: seq<Entry>,
                             name: string, release: Release, direct: bool)
    requires forall e :: e in entries <==> e in shuffled
    ensures Agree(entries) <==> Agree(shuffled)
    ensures Agree(entries) && Merged(entries, out) && Merged(shuffled, other) ==>
              (Pins(out, name, release, direct) <==> Pins(other, name, release, direct))
  {
    if Agree(entries) {
      AgreeOnElements(entries, shuffled);
    }
    if Agree(shuffled) {
      AgreeOnElements(shuffled, entries);
    }
    if Agree(entries) && Merged(entries, out) && Merged(shuffled, other) {
      MergedPins(entries, out, name, release, direct);
      MergedPins(shuffled, other, name, release, direct);
    }
  }

  lemma AgreeOnElements(entries: seq<Entry>, shuffled: seq<Entry>)
    requires Agree(entries) && forall e :: e in shuffled ==> e in entries
    ensures Agree(shuffled)
  {
    forall i, j | 0 <= i < |shuffled| && 0 <= j < |shuffled| && NameOf(shuffled[i]) == NameOf(shuffled[j])
      ensures ReleaseOf(shuffled[i]) == ReleaseOf(shuffled[j])
    {
      assert shuffled[i] in shuffled && shuffled[j] in shuffled;
      var k, l :| 0 <= k < |entries| && 0 <= l < |entries| && entries[k] == shuffled[i] && entries[l] == shuffled[j];
    }
  }
}
