/** Namespace visibility against the wildcard viewer tuple: the switch of
    internal/biz/namespace_usecase.go, the reconciler of internal/biz/visibility_reconciler.go and
    the row guards of internal/data/namespace_repo.go.

    The row and the tuple live in two stores. A tuple call that reports a failure may or may not
    have taken effect. */
module Visibility {
  import opened Order

  type Id = nat

  datatype Vis = Private | Public

  datatype Sync = Synced | Publishing | Revoking | SyncFailed

  datatype Row = Row(visibility: Vis, sync: Sync, revision: nat, updatedAt: nat, deleted: bool)

  /** How a tuple call ended. */
  datatype Outcome = Applied | FailedApplied | FailedLost

  function Wanted(v: Vis): Sync {
    if v == Public then Publishing else Revoking
  }

  function Project(wild: set<Id>, id: Id, v: Vis, outcome: Outcome): set<Id> {
    if outcome == FailedLost then wild else if v == Public then wild + {id} else wild - {id}
  }

  /** The guard of the row update. */
  predicate CasHits(rows: map<Id, Row>, id: Id, expected: nat) {
    id in rows && !rows[id].deleted && rows[id].revision == expected
  }

  function Stamped(row: Row, v: Vis, sync: Sync, now: nat): Row {
    row.(visibility := v, sync := sync, revision := row.revision + 1, updatedAt := now)
  }

  /** What the two stores promise each other. */
  ghost predicate Agreed(rows: map<Id, Row>, wild: set<Id>) {
    forall id :: id in rows && !rows[id].deleted && rows[id].sync == Synced ==>
      (id in wild <==> rows[id].visibility == Public)
  }

  // ---- Any number of switches and passes at once ----

  datatype Actor =
    | Reading(id: Id, prior: Vis, expected: nat, desired: Vis)
    | Switching(id: Id, prior: Vis, desired: Vis, revision: nat)
    | Listed(id: Id, desired: Vis, revision: nat)
    | Undoing(id: Id, prior: Vis)
    | Reloaded(id: Id, prior: Vis, revision: nat)
    | Projected(id: Id, desired: Vis, revision: nat)

  datatype State = State(rows: map<Id, Row>, wild: set<Id>, actors: map<nat, Actor>)

  const EMPTY := State(map[], {}, map[])

  /** `ok` says whether the database call took effect. An actor that stops takes no more steps. */
  datatype Step =
    | Create(id: Id)
    | EditRow(id: Id)
    | SoftDelete(id: Id)
    | SwitchRead(actor: nat, id: Id, expected: nat, desired: Vis)
    | SwitchStamp(actor: nat, ok: bool)
    | ReconcilerList(actor: nat, id: Id)
    | WriteTuple(actor: nat, outcome: Outcome)
    | CompensateReload(actor: nat, ok: bool)
    | CompensateStamp(actor: nat, ok: bool)
    | StampSynced(actor: nat, ok: bool)

  function Goto(s: State, actor: nat, next: Actor): State {
    s.(actors := s.actors[actor := next])
  }

  function Leave(s: State, actor: nat): State {
    s.(actors := s.actors - {actor})
  }

  function Next(s: State, a: Step): State {
    match a
    case Create(id) =>
      if id in s.rows then s else s.(rows := s.rows[id := Row(Private, Synced, 1, 0, false)], wild := s.wild - {id})
    case EditRow(id) =>
      if id !in s.rows then s else s.(rows := s.rows[id := s.rows[id].(revision := s.rows[id].revision + 1)])
    case SoftDelete(id) =>
      if id !in s.rows then s else s.(rows := s.rows[id := s.rows[id].(deleted := true)])
    case SwitchRead(actor, id, expected, desired) =>
      if actor in s.actors || id !in s.rows || s.rows[id].deleted || s.rows[id].visibility == desired then s
      else Goto(s, actor, Reading(id, s.rows[id].visibility, expected, desired))
    case SwitchStamp(actor, ok) =>
      if actor !in s.actors || !s.actors[actor].Reading? then s
      else
        var r := s.actors[actor];
        if !ok || !CasHits(s.rows, r.id, r.expected) then Leave(s, actor)
        else Goto(s.(rows := s.rows[r.id := Stamped(s.rows[r.id], r.desired, Wanted(r.desired), 0)]),
                  actor, Switching(r.id, r.prior, r.desired, r.expected + 1))
    case ReconcilerList(actor, id) =>
      if actor in s.actors || id !in s.rows || s.rows[id].deleted || s.rows[id].sync == Synced then s
      else Goto(s, actor, Listed(id, s.rows[id].visibility, s.rows[id].revision))
    case WriteTuple(actor, outcome) =>
      if actor !in s.actors || !Intends(s.actors[actor]) then s
      else
        var r := s.actors[actor];
        var t := s.(wild := Project(s.wild, r.id, r.desired, outcome));
        if outcome == Applied then Goto(t, actor, Projected(r.id, r.desired, r.revision))
        else if r.Switching? then Goto(t, actor, Undoing(r.id, r.prior))
        else Leave(t, actor)
    case CompensateReload(actor, ok) =>
      if actor !in s.actors || !s.actors[actor].Undoing? then s
      else
        var r := s.actors[actor];
        if !ok || r.id !in s.rows || s.rows[r.id].deleted then Leave(s, actor)
        else Goto(s, actor, Reloaded(r.id, r.prior, s.rows[r.id].revision))
    case CompensateStamp(actor, ok) =>
      if actor !in s.actors || !s.actors[actor].Reloaded? then s
      else
        var r := s.actors[actor];
        if !ok || !CasHits(s.rows, r.id, r.revision) then Leave(s, actor)
        else Leave(s.(rows := s.rows[r.id := Stamped(s.rows[r.id], r.prior, SyncFailed, 0)]), actor)
    case StampSynced(actor, ok) =>
      if actor !in s.actors || !s.actors[actor].Projected? then s
      else
        var r := s.actors[actor];
        if !ok || !CasHits(s.rows, r.id, r.revision) then Leave(s, actor)
        else Leave(s.(rows := s.rows[r.id := Stamped(s.rows[r.id], r.desired, Synced, 0)]), actor)
  }

  function Run(steps: seq<Step>): State
    decreases |steps|
  {
    if steps == [] then EMPTY else Next(Run(steps[..|steps| - 1]), steps[|steps| - 1])
  }

  /** The actor is about to write the tuple. */
  predicate Intends(r: Actor) {
    r.Switching? || r.Listed?
  }

  /** What an actor saw is still the row's, unless the row has moved on. */
  ghost predicate ActorOk(s: State, r: Actor) {
    (Intends(r) || r.Projected?) ==>
      r.id in s.rows && r.revision <= s.rows[r.id].revision &&
      (r.revision == s.rows[r.id].revision ==>
         s.rows[r.id].visibility == r.desired && (r.Projected? ==> (r.id in s.wild <==> r.desired == Public)))
  }

  ghost predicate Inv(s: State) {
    Agreed(s.rows, s.wild) && forall actor :: actor in s.actors ==> ActorOk(s, s.actors[actor])
  }

  /** A tuple is written only in the direction the row still wants. */
  predicate Level(s: State, a: Step) {
    a.WriteTuple? && a.actor in s.actors && Intends(s.actors[a.actor]) && a.outcome != FailedLost ==>
      s.actors[a.actor].id in s.rows && s.rows[s.actors[a.actor].id].visibility == s.actors[a.actor].desired
  }

  lemma StepKeepsAgreed(s: State, a: Step)
    requires Inv(s) && Level(s, a)
    ensures Agreed(Next(s, a).rows, Next(s, a).wild)
  {
    assert (!a.Create? && !a.EditRow? && !a.SoftDelete?) && a.actor in s.actors ==> ActorOk(s, s.actors[a.actor]);
  }

  lemma StepKeepsActor(s: State, a: Step, actor: nat)
    requires Inv(s) && Level(s, a) && actor in Next(s, a).actors
    ensures ActorOk(Next(s, a), Next(s, a).actors[actor])
  {
    assert (!a.Create? && !a.EditRow? && !a.SoftDelete?) && a.actor in s.actors ==> ActorOk(s, s.actors[a.actor]);
    assert actor in s.actors ==> ActorOk(s, s.actors[actor]);
  }

  lemma StepKeepsInv(s: State, a: Step)
    requires Inv(s) && Level(s, a)
    ensures Inv(Next(s, a))
  {
    StepKeepsAgreed(s, a);
    forall actor | actor in Next(s, a).actors
      ensures ActorOk(Next(s, a), Next(s, a).actors[actor])
    {
      StepKeepsActor(s, a, actor);
    }
  }

  ghost predicate LevelRun(steps: seq<Step>)
    decreases |steps|
  {
    steps != [] ==> LevelRun(steps[..|steps| - 1]) && Level(Run(steps[..|steps| - 1]), steps[|steps| - 1])
  }

  /** In every interleaving whose tuple writes go the way the row still wants, with any call
      failing, a synced row has the wildcard tuple exactly when it is public. */
  lemma {:induction false} SyncedRowsAgree(steps: seq<Step>)
    requires LevelRun(steps)
    ensures Inv(Run(steps))
    decreases |steps|
  {
    if steps != [] {
      SyncedRowsAgree(steps[..|steps| - 1]);
      StepKeepsInv(Run(steps[..|steps| - 1]), steps[|steps| - 1]);
    }
  }

  // ---- Exactly when a synced row agrees ----

  /** The step writes the tuple of the namespace, and the write takes effect. */
  predicate Writes(s: State, a: Step, id: Id) {
    a.WriteTuple? && a.actor in s.actors && Intends(s.actors[a.actor]) && s.actors[a.actor].id == id &&
    a.outcome != FailedLost
  }

  /** The last write of the namespace's tuple that took effect went the way the row wanted at that
      moment; true when there has been none since the row was created. */
  ghost predicate LastWriteLevel(steps: seq<Step>, id: Id)
    decreases |steps|
  {
    if steps == [] then true
    else
      var s, a := Run(steps[..|steps| - 1]), steps[|steps| - 1];
      if a.Create? && a.id == id && id !in s.rows then true
      else if Writes(s, a, id) then Level(s, a)
      else LastWriteLevel(steps[..|steps| - 1], id)
  }

  /** The row's visibility when its tuple was last written; private before any write. */
  ghost function SeenAtWrite(steps: seq<Step>, id: Id): Vis
    decreases |steps|
  {
    if steps == [] then Private
    else SeenNext(Run(steps[..|steps| - 1]), steps[|steps| - 1], id, SeenAtWrite(steps[..|steps| - 1], id))
  }

  function SeenNext(s: State, a: Step, id: Id, seen: Vis): Vis {
    if a.Create? && a.id == id && id !in s.rows then Private
    else if Writes(s, a, id) && id in s.rows then s.rows[id].visibility
    else seen
  }

  /** `ActorOk` without the tuple. */
  ghost predicate Current(s: State, r: Actor) {
    (Intends(r) || r.Projected?) ==>
      r.id in s.rows && r.revision <= s.rows[r.id].revision &&
      (r.revision == s.rows[r.id].revision ==> s.rows[r.id].visibility == r.desired)
  }

  ghost predicate AllCurrent(s: State) {
    forall actor :: actor in s.actors ==> Current(s, s.actors[actor])
  }

  lemma StepKeepsCurrent(s: State, a: Step)
    requires AllCurrent(s)
    ensures AllCurrent(Next(s, a))
  {
    var t := Next(s, a);
    forall actor | actor in t.actors
      ensures Current(t, t.actors[actor])
    {
      assert actor in s.actors ==> Current(s, s.actors[actor]);
      assert (a.StampSynced? || a.WriteTuple?) && a.actor in s.actors ==> Current(s, s.actors[a.actor]);
    }
  }

  /** An actor that wrote the tuple and may still stamp the row saw the row as it is. */
  ghost predicate MayStamp(s: State, r: Actor, id: Id) {
    r.Projected? && r.id == id && id in s.rows && r.revision == s.rows[id].revision
  }

  /** A row that is synced, or about to be, still has the visibility `seen`. */
  ghost predicate SeenBy(s: State, id: Id, seen: Vis) {
    (id in s.rows && s.rows[id].sync == Synced ==> s.rows[id].visibility == seen) &&
    forall actor :: actor in s.actors && MayStamp(s, s.actors[actor], id) ==> s.rows[id].visibility == seen
  }

  lemma StepKeepsSynced(s: State, a: Step, id: Id, seen: Vis)
    requires AllCurrent(s) && SeenBy(s, id, seen)
    requires id in Next(s, a).rows && Next(s, a).rows[id].sync == Synced
    ensures Next(s, a).rows[id].visibility == SeenNext(s, a, id, seen)
  {
    assert (a.StampSynced? || a.WriteTuple?) && a.actor in s.actors ==>
        Current(s, s.actors[a.actor]) && (MayStamp(s, s.actors[a.actor], id) ==> s.rows[id].visibility == seen);
  }

  lemma StepKeepsMayStamp(s: State, a: Step, id: Id, seen: Vis, actor: nat)
    requires AllCurrent(s) && SeenBy(s, id, seen)
    requires actor in Next(s, a).actors && MayStamp(Next(s, a), Next(s, a).actors[actor], id)
    ensures Next(s, a).rows[id].visibility == SeenNext(s, a, id, seen)
  {
    assert actor in s.actors ==>
        Current(s, s.actors[actor]) && (MayStamp(s, s.actors[actor], id) ==> s.rows[id].visibility == seen);
  }

  lemma {:induction false} RunKeepsSeen(steps: seq<Step>, id: Id)
    ensures AllCurrent(Run(steps)) && SeenBy(Run(steps), id, SeenAtWrite(steps, id))
    decreases |steps|
  {
    if steps != [] {
      var s, a, seen := Run(steps[..|steps| - 1]), steps[|steps| - 1], SeenAtWrite(steps[..|steps| - 1], id);
      var t := Next(s, a);
      RunKeepsSeen(steps[..|steps| - 1], id);
      StepKeepsCurrent(s, a);
      if id in t.rows && t.rows[id].sync == Synced {
        StepKeepsSynced(s, a, id, seen);
      }
      forall actor | actor in t.actors && MayStamp(t, t.actors[actor], id)
        ensures t.rows[id].visibility == SeenNext(s, a, id, seen)
      {
        StepKeepsMayStamp(s, a, id, seen, actor);
      }
    }
  }

  /** The tuple matches what its last writer could have seen exactly when that write was level. */
  lemma {:induction false} TupleFollowsLastWrite(steps: seq<Step>, id: Id)
    ensures (id in Run(steps).wild <==> SeenAtWrite(steps, id) == Public) <==> LastWriteLevel(steps, id)
    decreases |steps|
  {
    if steps != [] {
      var init, a := steps[..|steps| - 1], steps[|steps| - 1];
      var s := Run(init);
      TupleFollowsLastWrite(init, id);
      RunKeepsSeen(init, id);
      if Writes(s, a, id) {
        assert Current(s, s.actors[a.actor]);
      }
    }
  }

  /** After any run at all, with any overlap and any call failing, a live synced row agrees with
      its tuple exactly when the last tuple write that took effect was level when it was made. */
  lemma SyncedAgreesExactly(steps: seq<Step>, id: Id)
    requires id in Run(steps).rows && !Run(steps).rows[id].deleted && Run(steps).rows[id].sync == Synced
    ensures (id in Run(steps).wild <==> Run(steps).rows[id].visibility == Public) <==> LastWriteLevel(steps, id)
  {
    RunKeepsSeen(steps, id);
    TupleFollowsLastWrite(steps, id);
  }

  // ---- Switches and passes that do not overlap ----

  predicate ChangesVisibility(s: State, a: Step, id: Id) {
    id in s.rows && id in Next(s, a).rows && Next(s, a).rows[id].visibility != s.rows[id].visibility
  }

  /** No row changes its visibility while another actor is about to write its tuple. */
  ghost predicate Apart(s: State, a: Step) {
    forall actor :: actor in s.actors && Intends(s.actors[actor]) ==> !ChangesVisibility(s, a, s.actors[actor].id)
  }

  ghost predicate ApartRun(steps: seq<Step>)
    decreases |steps|
  {
    steps != [] ==> ApartRun(steps[..|steps| - 1]) && Apart(Run(steps[..|steps| - 1]), steps[|steps| - 1])
  }

  ghost predicate IntentsCurrent(s: State) {
    forall actor :: actor in s.actors && Intends(s.actors[actor]) ==>
      s.actors[actor].id in s.rows && s.rows[s.actors[actor].id].visibility == s.actors[actor].desired
  }

  lemma ApartKeepsIntents(s: State, a: Step)
    requires IntentsCurrent(s) && Apart(s, a)
    ensures IntentsCurrent(Next(s, a))
  {
    var t := Next(s, a);
    forall actor | actor in t.actors && Intends(t.actors[actor])
      ensures t.actors[actor].id in t.rows && t.rows[t.actors[actor].id].visibility == t.actors[actor].desired
    {
      assert actor in s.actors && Intends(s.actors[actor]) ==> !ChangesVisibility(s, a, s.actors[actor].id);
    }
  }

  lemma {:induction false} ApartRunsAreLevel(steps: seq<Step>)
    requires ApartRun(steps)
    ensures IntentsCurrent(Run(steps)) && LevelRun(steps)
    decreases |steps|
  {
    if steps != [] {
      ApartRunsAreLevel(steps[..|steps| - 1]);
      ApartKeepsIntents(Run(steps[..|steps| - 1]), steps[|steps| - 1]);
    }
  }

  /** Non-overlapping switches and passes keep the two stores in agreement. */
  lemma NonOverlappingRunsAgree(steps: seq<Step>)
    requires ApartRun(steps)
    ensures Agreed(Run(steps).rows, Run(steps).wild)
  {
    ApartRunsAreLevel(steps);
    SyncedRowsAgree(steps);
  }

  lemma Extend(steps: seq<Step>, a: Step, s: State, t: State) returns (longer: seq<Step>)
    requires Run(steps) == s && Next(s, a) == t
    ensures Run(longer) == t
  {
    longer := steps + [a];
    assert longer[..|longer| - 1] == steps;
  }

  /** A switch by `actor` from a synced row runs to its end while `others` wait. */
  lemma SwitchRuns(start: seq<Step>, row: Row, wild: set<Id>, others: map<nat, Actor>, actor: nat, v: Vis)
    returns (steps: seq<Step>)
    requires Run(start) == State(map[1 := row], wild, others) && actor !in others
    requires !row.deleted && row.visibility != v
    ensures Run(steps) == State(map[1 := Row(v, Synced, row.revision + 2, 0, false)], Project(wild, 1, v, Applied),
                                others)
  {
    var s0 := State(map[1 := row], wild, others);
    var s1 := s0.(actors := others[actor := Reading(1, row.visibility, row.revision, v)]);
    steps := Extend(start, SwitchRead(actor, 1, row.revision, v), s0, s1);
    var r2 := Row(v, Wanted(v), row.revision + 1, 0, false);
    var s2 := State(map[1 := r2], wild, others[actor := Switching(1, row.visibility, v, row.revision + 1)]);
    assert s1.rows[1 := r2] == s2.rows;
    assert s1.actors[actor := s2.actors[actor]] == s2.actors;
    steps := Extend(steps, SwitchStamp(actor, true), s1, s2);
    steps := SwitchEnds(steps, r2, wild, others, actor, row.visibility);
  }

  lemma SwitchEnds(start: seq<Step>, row: Row, wild: set<Id>, others: map<nat, Actor>, actor: nat, prior: Vis)
    returns (steps: seq<Step>)
    requires actor !in others && !row.deleted && row.updatedAt == 0
    requires Run(start) == State(map[1 := row], wild,
                                 others[actor := Switching(1, prior, row.visibility, row.revision)])
    ensures Run(steps) == State(map[1 := Row(row.visibility, Synced, row.revision + 1, 0, false)],
                                Project(wild, 1, row.visibility, Applied), others)
  {
    var s2 := State(map[1 := row], wild, others[actor := Switching(1, prior, row.visibility, row.revision)]);
    var wild3 := Project(wild, 1, row.visibility, Applied);
    var s3 := State(map[1 := row], wild3, others[actor := Projected(1, row.visibility, row.revision)]);
    assert s2.actors[actor := s3.actors[actor]] == s3.actors;
    steps := Extend(start, WriteTuple(actor, Applied), s2, s3);
    var s4 := State(map[1 := Row(row.visibility, Synced, row.revision + 1, 0, false)], wild3, others);
    assert s3.rows[1 := s4.rows[1]] == s4.rows;
    assert s3.actors - {actor} == s4.actors;
    steps := Extend(steps, StampSynced(actor, true), s3, s4);
  }

  /** A switch by `actor` whose tuple call fails puts the row back and marks it, while `others` wait.
      The tuple may have been written all the same. */
  lemma SwitchCompensates(start: seq<Step>, row: Row, wild: set<Id>, others: map<nat, Actor>, actor: nat, prior: Vis,
                          outcome: Outcome) returns (steps: seq<Step>)
    requires actor !in others && !row.deleted && row.updatedAt == 0 && outcome != Applied
    requires Run(start) == State(map[1 := row], wild,
                                 others[actor := Switching(1, prior, row.visibility, row.revision)])
    ensures Run(steps) == State(map[1 := Row(prior, SyncFailed, row.revision + 1, 0, false)],
                                Project(wild, 1, row.visibility, outcome), others)
  {
    var s2 := State(map[1 := row], wild, others[actor := Switching(1, prior, row.visibility, row.revision)]);
    var wild3 := Project(wild, 1, row.visibility, outcome);
    var s3 := State(map[1 := row], wild3, others[actor := Undoing(1, prior)]);
    assert s2.actors[actor := s3.actors[actor]] == s3.actors;
    steps := Extend(start, WriteTuple(actor, outcome), s2, s3);
    var s4 := s3.(actors := others[actor := Reloaded(1, prior, row.revision)]);
    assert s3.actors[actor := s4.actors[actor]] == s4.actors;
    steps := Extend(steps, CompensateReload(actor, true), s3, s4);
    var s5 := State(map[1 := Row(prior, SyncFailed, row.revision + 1, 0, false)], wild3, others);
    assert s4.rows[1 := s5.rows[1]] == s5.rows;
    assert s4.actors - {actor} == s5.actors;
    steps := Extend(steps, CompensateStamp(actor, true), s4, s5);
  }

  const CREATED := State(map[1 := Row(Private, Synced, 1, 0, false)], {}, map[])
  const PUBLISHING := State(map[1 := Row(Public, Publishing, 2, 0, false)], {},
                            map[0 := Switching(1, Private, Public, 2)])

  lemma PublishingRun() returns (steps: seq<Step>)
    ensures Run(steps) == PUBLISHING
  {
    steps := Extend([], Create(1), EMPTY, CREATED);
    var reading := CREATED.(actors := map[0 := Reading(1, Private, 1, Public)]);
    steps := Extend(steps, SwitchRead(0, 1, 1, Public), CREATED, reading);
    steps := Extend(steps, SwitchStamp(0, true), reading, PUBLISHING);
  }

  /** Overlap breaks agreement: a pass lists the row as public, a switch to private completes, and
      the pass then writes the wildcard of a private, synced namespace. */
  lemma OverlapBreaksAgreement() returns (steps: seq<Step>)
    ensures Run(steps).rows == map[1 := Row(Private, Synced, 4, 0, false)] && Run(steps).wild == {1}
  {
    steps := PublishingRun();
    var waiting := PUBLISHING.actors[9 := Listed(1, Public, 2)];
    steps := Extend(steps, ReconcilerList(9, 1), PUBLISHING, PUBLISHING.(actors := waiting));
    steps := SwitchRuns(steps, PUBLISHING.rows[1], {}, waiting, 2, Private);
    var s4 := State(map[1 := Row(Private, Synced, 4, 0, false)], {}, waiting);
    steps := Extend(steps, WriteTuple(9, Applied), s4, Next(s4, WriteTuple(9, Applied)));
  }

  // ---- One switch, one pass ----

  function WithSync(rows: map<Id, Row>, sync: Sync): set<Id> {
    set id | id in rows && !rows[id].deleted && rows[id].sync == sync
  }

  /** What a pass does to the two stores: it stamps the rows in `drained` with their own visibility
      and gives them the matching tuple. It changes no other row and no other settled tuple. */
  ghost predicate Repaired(r0: map<Id, Row>, w0: set<Id>, r1: map<Id, Row>, w1: set<Id>, drained: set<Id>, now: nat) {
    r1.Keys == r0.Keys &&
    (forall id :: id in drained ==>
       id in r0 && !r0[id].deleted && r0[id].sync != Synced &&
       r1[id] == Stamped(r0[id], r0[id].visibility, Synced, now) && (id in w1 <==> r0[id].visibility == Public)) &&
    (forall id :: id in r0 && id !in drained ==> r1[id] == r0[id]) &&
    (forall id :: id !in drained && (id !in r0 || r0[id].deleted || r0[id].sync == Synced) ==> (id in w1 <==> id in w0))
  }

  lemma RepairedAgrees(r0: map<Id, Row>, w0: set<Id>, r1: map<Id, Row>, w1: set<Id>, drained: set<Id>, now: nat)
    requires Agreed(r0, w0) && Repaired(r0, w0, r1, w1, drained, now)
    ensures Agreed(r1, w1)
  {
    forall id | id in r1 && !r1[id].deleted && r1[id].sync == Synced
      ensures id in w1 <==> r1[id].visibility == Public
    {
      assert id in r0;
      assert id !in drained ==> r0[id] == r1[id];
    }
  }

  lemma RepairedCompose(r0: map<Id, Row>, w0: set<Id>, r1: map<Id, Row>, w1: set<Id>, r2: map<Id, Row>, w2: set<Id>,
                        d1: set<Id>, d2: set<Id>, now: nat)
    requires Repaired(r0, w0, r1, w1, d1, now) && Repaired(r1, w1, r2, w2, d2, now)
    ensures d1 !! d2 && Repaired(r0, w0, r2, w2, d1 + d2, now)
  {
    forall id | id in d1
      ensures id !in d2
    {
      assert r1[id].sync == Synced;
    }
    forall id | id in d1 + d2
      ensures id in r0 && !r0[id].deleted && r0[id].sync != Synced &&
              r2[id] == Stamped(r0[id], r0[id].visibility, Synced, now) && (id in w2 <==> r0[id].visibility == Public)
    {
      assert id in r0 && id in r1;
      assert id in d1 || id in d2;
    }
    forall id | id !in d1 + d2 && (id !in r0 || r0[id].deleted || r0[id].sync == Synced)
      ensures id in w2 <==> id in w0
    {
      assert id in r0 ==> r1[id] == r0[id];
    }
  }

  function Fewer(a: nat, b: nat): nat {
    if a < b then a else b
  }

  /** Of the rows in one unsynced state, `drained` holds as many as the batch allows, oldest first. */
  ghost predicate DrainsOldest(rows: map<Id, Row>, sync: Sync, limit: nat, drained: set<Id>) {
    var waiting := WithSync(rows, sync);
    |drained * waiting| == Fewer(limit, |waiting|) && OldestFirst(rows, drained * waiting, waiting - drained)
  }

  ghost predicate OldestFirst(rows: map<Id, Row>, taken: set<Id>, left: set<Id>) {
    forall id, other :: id in taken && other in left ==>
      id in rows && other in rows && rows[id].updatedAt <= rows[other].updatedAt
  }

  ghost predicate Lists(rows: map<Id, Row>, sync: Sync, limit: nat, ids: seq<Id>) {
    var waiting := WithSync(rows, sync);
    NoDup(ids) && |ids| == Fewer(limit, |waiting|) &&
    (forall id :: id in ids ==> id in waiting) &&
    forall id, other :: id in ids && other in waiting && other !in ids ==> rows[id].updatedAt <= rows[other].updatedAt
  }

  lemma {:induction false} OldestExists(rows: map<Id, Row>, some: set<Id>) returns (oldest: Id)
    requires some != {} && forall id :: id in some ==> id in rows
    ensures oldest in some && forall id :: id in some ==> rows[oldest].updatedAt <= rows[id].updatedAt
    decreases some
  {
    oldest :| oldest in some;
    if some != {oldest} {
      var rest := OldestExists(rows, some - {oldest});
      assert forall id :: id in some ==> id == oldest || id in some - {oldest};
      if rows[rest].updatedAt < rows[oldest].updatedAt {
        oldest := rest;
      }
    }
  }

  function Elements(ids: seq<Id>): set<Id> {
    set id | id in ids
  }

  lemma ElementsSnoc(ids: seq<Id>, id: Id)
    ensures Elements(ids + [id]) == Elements(ids) + {id}
  {
  }

  lemma NextIsNew(rows: map<Id, Row>, ids: seq<Id>, i: nat)
    requires NoDup(ids) && i < |ids| && Waiting(rows, ids)
    ensures Waiting(rows, [ids[i]]) && ids[i] !in Elements(ids[..i])
    ensures Elements(ids[..i + 1]) == Elements(ids[..i]) + {ids[i]} <= Elements(ids)
  {
    ElementsSnoc(ids[..i], ids[i]);
    assert ids[..i + 1] == ids[..i] + [ids[i]];
  }

  lemma NoDupInit(ids: seq<Id>)
    requires NoDup(ids) && ids != []
    ensures NoDup(ids[..|ids| - 1]) && ids[|ids| - 1] !in ids[..|ids| - 1]
  {
  }

  lemma {:induction false} ElementsCount(ids: seq<Id>)
    requires NoDup(ids)
    ensures |Elements(ids)| == |ids|
  {
    if ids != [] {
      var init, last := ids[..|ids| - 1], ids[|ids| - 1];
      NoDupInit(ids);
      ElementsCount(init);
      ElementsSnoc(init, last);
      assert ids == init + [last];
    }
  }

  /** What goes wrong for one row: how its tuple call ends and whether its stamp takes effect. */
  datatype Fault = Fault(outcome: Outcome, stamped: bool)

  const HEALTHY := Fault(Applied, true)

  ghost predicate Healthy(faults: Id -> Fault) {
    forall id :: faults(id) == HEALTHY
  }

  datatype SwitchResult = NotFound | Unchanged | Conflict | Switched

  class Store {
    var rows: map<Id, Row>
    var wild: set<Id>
    var now: nat

    constructor ()
      ensures rows == map[] && wild == {} && now == 0 && Agreed(rows, wild)
    {
      rows, wild, now := map[], {}, 0;
    }

    /** The guarded row update. It bumps the revision, so of two updates that expect the same
        revision only one takes effect. */
    method UpdateNamespaceVisibility(id: Id, expected: nat, v: Vis, sync: Sync, ok: bool) returns (updated: bool)
      modifies this`rows
      ensures updated <==> ok && id in old(rows) && !old(rows)[id].deleted && old(rows)[id].revision == expected
      ensures updated ==> rows == old(rows)[id := Row(v, sync, expected + 1, now, false)]
      ensures rows == if updated then old(rows)[id := Stamped(old(rows)[id], v, sync, now)] else old(rows)
      ensures updated ==> CasHits(rows, id, expected + 1) && !CasHits(rows, id, expected)
      ensures forall other :: other != id && other in old(rows) ==> other in rows && rows[other] == old(rows)[other]
    {
      updated := ok && CasHits(rows, id, expected);
      if updated {
        rows := rows[id := Stamped(rows[id], v, sync, now)];
      }
    }

    /** The whole switch with no other actor in between. `fault.stamped` also decides the
        compensating stamp. */
    method Switch(id: Id, expected: nat, desired: Vis, fault: Fault) returns (result: SwitchResult)
      requires Agreed(rows, wild)
      modifies this`rows, this`wild
      ensures Agreed(rows, wild)
      ensures rows.Keys == old(rows).Keys &&
              forall other :: other in rows && other != id ==> rows[other] == old(rows)[other]
      ensures result != Switched ==> rows == old(rows) && wild == old(wild)
      ensures result == NotFound <==> id !in old(rows) || old(rows)[id].deleted
      ensures result != NotFound ==>
                var was := old(rows)[id];
                (result == Unchanged <==> was.visibility == desired) &&
                (result == Conflict <==> was.visibility != desired && was.revision != expected) &&
                (result == Switched <==> was.visibility != desired && was.revision == expected)
      ensures result == Switched ==>
                var prior, waiting := old(rows)[id].visibility, if desired == Public then Publishing else Revoking;
                (rows[id].visibility, rows[id].sync) ==
                  (if fault.outcome == Applied
                   then (if fault.stamped then (desired, Synced) else (desired, waiting))
                   else if fault.stamped then (prior, SyncFailed) else (desired, waiting))
      ensures result == Switched ==> rows[id].revision == expected + if fault.stamped then 2 else 1
      ensures forall other :: other in wild <==>
                if other == id && result == Switched && fault.outcome != FailedLost then desired == Public
                else other in old(wild)
    {
      if id !in rows || rows[id].deleted {
        return NotFound;
      }
      var prior := rows[id].visibility;
      if prior == desired {
        return Unchanged;
      }
      var updated := UpdateNamespaceVisibility(id, expected, desired, Wanted(desired), true);
      if !updated {
        return Conflict;
      }
      wild := Project(wild, id, desired, fault.outcome);
      if fault.outcome == Applied {
        updated := UpdateNamespaceVisibility(id, expected + 1, desired, Synced, fault.stamped);
      } else {
        updated := UpdateNamespaceVisibility(id, rows[id].revision, prior, SyncFailed, fault.stamped);
      }
      return Switched;
    }

    method ListBySyncStatus(sync: Sync, limit: nat) returns (ids: seq<Id>)
      ensures Lists(rows, sync, limit, ids)
      ensures |ids| <= limit
      ensures forall id :: id in ids ==> id in rows && !rows[id].deleted && rows[id].sync == sync
      ensures forall other :: other in rows && !rows[other].deleted && rows[other].sync == sync && other !in ids ==>
                |ids| == limit && forall id :: id in ids ==> rows[id].updatedAt <= rows[other].updatedAt
    {
      var waiting := WithSync(rows, sync);
      var rest := waiting;
      ids := [];
      while rest != {} && |ids| < limit
        invariant rest <= waiting && |ids| + |rest| == |waiting| && |ids| <= limit && NoDup(ids)
        invariant forall id :: id in waiting <==> id in rest || id in ids
        invariant forall id :: id in ids ==> id !in rest
        invariant forall id, other :: id in ids && other in rest ==> rows[id].updatedAt <= rows[other].updatedAt
        decreases rest
      {
        ghost var first := OldestExists(rows, rest);
        var oldest :| oldest in rest && forall id :: id in rest ==> rows[oldest].updatedAt <= rows[id].updatedAt;
        ids := ids + [oldest];
        rest := rest - {oldest};
      }
      assert rest == {} ==> forall id :: id in waiting ==> id in ids;
    }

    method ConvergeOne(id: Id, listed: Row, fault: Fault) returns (converged: bool)
      requires id in rows && rows[id] == listed && !listed.deleted && listed.sync != Synced
      modifies this`rows, this`wild
      ensures converged <==> fault.outcome == Applied && fault.stamped
      ensures Repaired(old(rows), old(wild), rows, wild, if converged then {id} else {}, now)
    {
      wild := Project(wild, id, listed.visibility, fault.outcome);
      if fault.outcome != Applied {
        return false;
      }
      converged := UpdateNamespaceVisibility(id, listed.revision, listed.visibility, Synced, fault.stamped);
    }

    /** The next row of a pass that began at `r0` and `w0` and has drained `before` so far. */
    method ConvergeNext(ids: seq<Id>, i: nat, faults: Id -> Fault,
                        ghost r0: map<Id, Row>, ghost w0: set<Id>, ghost before: set<Id>)
      returns (ok: bool, ghost drained: set<Id>)
      requires i < |ids| && NoDup(ids) && Waiting(r0, ids)
      requires Progress(r0, w0, rows, wild, before, ids, i, faults, now)
      modifies this`rows, this`wild
      ensures |drained| == |before| + if ok then 1 else 0
      ensures Progress(r0, w0, rows, wild, drained, ids, i + 1, faults, now)
    {
      NextIsNew(r0, ids, i);
      var id := ids[i];
      assert id in [id];
      ghost var r1, w1 := rows, wild;
      ok := ConvergeOne(id, rows[id], faults(id));
      RepairedCompose(r0, w0, r1, w1, rows, wild, before, if ok then {id} else {}, now);
      assert before + {} == before;
      drained := if ok then before + {id} else before;
    }

    /** Converges the listed rows in order and stops when `budget` rows have been tried. */
    method ConvergeAll(ids: seq<Id>, faults: Id -> Fault, budget: nat)
      returns (converged: nat, left: nat, ghost drained: set<Id>)
      requires NoDup(ids) && Waiting(rows, ids)
      modifies this`rows, this`wild
      ensures Repaired(old(rows), old(wild), rows, wild, drained, now)
      ensures drained <= Elements(ids) && converged == |drained| && left <= budget
      ensures Healthy(faults) && budget >= |ids| ==> drained == Elements(ids) && left == budget - |ids|
    {
      var i := 0;
      converged, left, drained := 0, budget, {};
      while i < |ids| && left > 0
        invariant 0 <= i <= |ids| && left == budget - i && converged == |drained|
        invariant Progress(old(rows), old(wild), rows, wild, drained, ids, i, faults, now)
      {
        var ok;
        ok, drained := ConvergeNext(ids, i, faults, old(rows), old(wild), drained);
        converged := converged + if ok then 1 else 0;
        i, left := i + 1, left - 1;
      }
      assert i == |ids| ==> ids[..i] == ids;
    }

    /** One unsynced state's share of a pass. */
    method PassStatus(sync: Sync, limit: nat, faults: Id -> Fault, budget: nat)
      returns (converged: nat, left: nat, ghost drained: set<Id>)
      requires sync != Synced
      modifies this`rows, this`wild
      ensures Repaired(old(rows), old(wild), rows, wild, drained, now)
      ensures drained <= WithSync(old(rows), sync) && converged == |drained| && left <= budget
      ensures Healthy(faults) && budget >= |old(rows)| ==>
                DrainsOldest(old(rows), sync, limit, drained) && left == budget - |drained|
    {
      var ids := ListBySyncStatus(sync, limit);
      ElementsCount(ids);
      DrainedAll(rows, sync, limit, ids);
      converged, left, drained := ConvergeAll(ids, faults, budget);
    }

    /** The `k`th unsynced state of a pass that began at `r0` and `w0` and has drained `before` so far. */
    method PassNext(k: nat, limit: nat, faults: Id -> Fault, budget: nat,
                    ghost r0: map<Id, Row>, ghost w0: set<Id>, ghost before: set<Id>)
      returns (converged: nat, left: nat, ghost drained: set<Id>)
      requires k < 3 && Repaired(r0, w0, rows, wild, before, now)
      requires forall id :: id in before ==> Turn(r0[id].sync) < k
      modifies this`rows, this`wild
      ensures Repaired(r0, w0, rows, wild, drained, now) && |drained| == |before| + converged
      ensures forall id :: id in drained ==> Turn(r0[id].sync) < k + 1
      ensures Healthy(faults) && budget >= |r0| && DrainedBefore(r0, k, limit, before) ==>
                DrainedBefore(r0, k + 1, limit, drained) && left == budget - converged
    {
      ghost var r1, w1 := rows, wild;
      ghost var more;
      converged, left, more := PassStatus(AtTurn(k), limit, faults, budget);
      NextStatus(r0, w0, r1, w1, rows, wild, before, more, k, limit, now);
      drained := before + more;
    }

    /** A whole pass. `budget` is how many rows it tries before it is cancelled. */
    method Pass(batchSize: int, faults: Id -> Fault, budget: nat) returns (converged: nat, ghost drained: set<Id>)
      requires Agreed(rows, wild)
      modifies this`rows, this`wild
      ensures Agreed(rows, wild)
      ensures Repaired(old(rows), old(wild), rows, wild, drained, now) && converged == |drained|
      ensures Healthy(faults) && budget >= 2 * |old(rows)| ==>
                DrainedBefore(old(rows), 3, if batchSize <= 0 then 100 else batchSize, drained)
      ensures Healthy(faults) && budget >= 2 * |old(rows)| &&
              |old(rows)| <= (if batchSize <= 0 then 100 else batchSize) ==>
                forall id :: id in rows && !rows[id].deleted ==> rows[id].sync == Synced
    {
      var left: nat := budget;
      var k := 0;
      converged, drained := 0, {};
      while k < 3
        invariant 0 <= k <= 3
        invariant Repaired(old(rows), old(wild), rows, wild, drained, now) && converged == |drained|
        invariant forall id :: id in drained ==> Turn(old(rows)[id].sync) < k
        invariant Healthy(faults) && budget >= 2 * |old(rows)| ==>
                    left == budget - converged && DrainedBefore(old(rows), k, BatchLimit(batchSize), drained)
      {
        SubsetFewer(drained, old(rows).Keys);
        var more;
        more, left, drained := PassNext(k, BatchLimit(batchSize), faults, left, old(rows), old(wild), drained);
        converged, k := converged + more, k + 1;
      }
      RepairedAgrees(old(rows), old(wild), rows, wild, drained, now);
      if DrainedBefore(old(rows), 3, BatchLimit(batchSize), drained) && |old(rows)| <= BatchLimit(batchSize) {
        AllDrained(old(rows), old(wild), rows, wild, drained, now, BatchLimit(batchSize));
      }
    }
  }

  /** The order in which a pass takes the unsynced states. */
  function AtTurn(k: nat): (sync: Sync)
    requires k < 3
    ensures Turn(sync) == k
  {
    if k == 0 then Publishing else if k == 1 then Revoking else SyncFailed
  }

  function Turn(sync: Sync): nat {
    match sync
    case Publishing => 0
    case Revoking => 1
    case SyncFailed => 2
    case Synced => 3
  }

  ghost predicate DrainedBefore(rows: map<Id, Row>, k: nat, limit: nat, drained: set<Id>) {
    forall sync :: Turn(sync) < k && sync != Synced ==> DrainsOldest(rows, sync, limit, drained)
  }

  function BatchLimit(batchSize: int): nat {
    if batchSize <= 0 then 100 else batchSize
  }

  /** Draining some states leaves the rows of the next one as they were. */
  lemma SameWaiting(r0: map<Id, Row>, w0: set<Id>, r1: map<Id, Row>, w1: set<Id>, d1: set<Id>, sync: Sync, now: nat)
    requires Repaired(r0, w0, r1, w1, d1, now) && sync != Synced
    requires forall id :: id in d1 ==> r0[id].sync != sync
    ensures WithSync(r1, sync) == WithSync(r0, sync)
    ensures forall id :: id in WithSync(r0, sync) ==> id !in d1 && r1[id] == r0[id]
  {
    forall id | id in r0
      ensures id in WithSync(r1, sync) <==> id in WithSync(r0, sync)
    {
      assert id in d1 || r1[id] == r0[id];
    }
  }

  lemma DrainCarries(r0: map<Id, Row>, r1: map<Id, Row>, d1: set<Id>, d2: set<Id>, sync: Sync, limit: nat)
    requires WithSync(r1, sync) == WithSync(r0, sync)
    requires forall id :: id in WithSync(r0, sync) ==> id !in d1 && r1[id] == r0[id]
    ensures DrainsOldest(r1, sync, limit, d2) ==> DrainsOldest(r0, sync, limit, d1 + d2)
  {
    assert (d1 + d2) * WithSync(r0, sync) == d2 * WithSync(r1, sync);
    assert WithSync(r0, sync) - (d1 + d2) == WithSync(r1, sync) - d2;
  }

  lemma DrainStays(rows: map<Id, Row>, d1: set<Id>, d2: set<Id>, sync: Sync, limit: nat)
    requires DrainsOldest(rows, sync, limit, d1) && d2 !! WithSync(rows, sync)
    ensures DrainsOldest(rows, sync, limit, d1 + d2)
  {
    assert (d1 + d2) * WithSync(rows, sync) == d1 * WithSync(rows, sync);
    assert WithSync(rows, sync) - (d1 + d2) == WithSync(rows, sync) - d1;
  }

  /** The share of one unsynced state does not depend on what the pass did before it. */
  lemma NextStatus(r0: map<Id, Row>, w0: set<Id>, r1: map<Id, Row>, w1: set<Id>, r2: map<Id, Row>, w2: set<Id>,
                   d1: set<Id>, d2: set<Id>, k: nat, limit: nat, now: nat)
    requires k < 3 && Repaired(r0, w0, r1, w1, d1, now) && Repaired(r1, w1, r2, w2, d2, now)
    requires forall id :: id in d1 ==> Turn(r0[id].sync) < k
    requires d2 <= WithSync(r1, AtTurn(k))
    ensures d1 !! d2 && Repaired(r0, w0, r2, w2, d1 + d2, now)
    ensures |d2| <= |r0| == |r1|
    ensures forall id :: id in d1 + d2 ==> Turn(r0[id].sync) < k + 1
    ensures DrainedBefore(r0, k, limit, d1) && DrainsOldest(r1, AtTurn(k), limit, d2) ==>
              DrainedBefore(r0, k + 1, limit, d1 + d2)
  {
    RepairedCompose(r0, w0, r1, w1, r2, w2, d1, d2, now);
    SameWaiting(r0, w0, r1, w1, d1, AtTurn(k), now);
    SubsetFewer(d2, r1.Keys);
    assert |r0.Keys| == |r0| && |r1.Keys| == |r1|;
    NextDrained(r0, r1, d1, d2, k, limit);
  }

  lemma NextDrained(r0: map<Id, Row>, r1: map<Id, Row>, d1: set<Id>, d2: set<Id>, k: nat, limit: nat)
    requires k < 3 && WithSync(r1, AtTurn(k)) == WithSync(r0, AtTurn(k)) && d2 <= WithSync(r0, AtTurn(k))
    requires forall id :: id in WithSync(r0, AtTurn(k)) ==> id !in d1 && r1[id] == r0[id]
    ensures DrainedBefore(r0, k, limit, d1) && DrainsOldest(r1, AtTurn(k), limit, d2) ==>
              DrainedBefore(r0, k + 1, limit, d1 + d2)
  {
    if DrainedBefore(r0, k, limit, d1) && DrainsOldest(r1, AtTurn(k), limit, d2) {
      forall sync | Turn(sync) < k + 1 && sync != Synced
        ensures DrainsOldest(r0, sync, limit, d1 + d2)
      {
        if Turn(sync) == k {
          DrainCarries(r0, r1, d1, d2, sync, limit);
        } else {
          DrainStays(r0, d1, d2, sync, limit);
        }
      }
    }
  }

  lemma StillWaiting(r0: map<Id, Row>, w0: set<Id>, r1: map<Id, Row>, w1: set<Id>, drained: set<Id>, now: nat,
                     sync: Sync)
    requires Repaired(r0, w0, r1, w1, drained, now) && sync != Synced
    ensures WithSync(r1, sync) == WithSync(r0, sync) - drained
  {
    forall id | id in r0
      ensures id in WithSync(r1, sync) <==> id in WithSync(r0, sync) - drained
    {
      assert id in drained ==> r1[id].sync == Synced;
    }
  }

  /** Each healthy pass takes the batch size off every unsynced state until none is left. */
  lemma PassDrains(r0: map<Id, Row>, w0: set<Id>, r1: map<Id, Row>, w1: set<Id>, drained: set<Id>, now: nat,
                   sync: Sync, limit: nat)
    requires Repaired(r0, w0, r1, w1, drained, now) && DrainsOldest(r0, sync, limit, drained) && sync != Synced
    ensures WithSync(r1, sync) == WithSync(r0, sync) - drained
    ensures |WithSync(r1, sync)| == |WithSync(r0, sync)| - Fewer(limit, |WithSync(r0, sync)|)
  {
    var waiting := WithSync(r0, sync);
    StillWaiting(r0, w0, r1, w1, drained, now, sync);
    SplitCount(waiting, drained);
  }

  lemma StateDrained(r0: map<Id, Row>, w0: set<Id>, r1: map<Id, Row>, w1: set<Id>, drained: set<Id>, now: nat,
                     limit: nat, sync: Sync)
    requires Repaired(r0, w0, r1, w1, drained, now) && DrainsOldest(r0, sync, limit, drained) && |r0| <= limit
    requires sync != Synced
    ensures WithSync(r1, sync) == {}
  {
    PassDrains(r0, w0, r1, w1, drained, now, sync, limit);
    SubsetFewer(WithSync(r0, sync), r0.Keys);
    assert |r0.Keys| == |r0|;
  }

  /** A batch that is large enough for all rows leaves none unsynced. */
  lemma AllDrained(r0: map<Id, Row>, w0: set<Id>, r1: map<Id, Row>, w1: set<Id>, drained: set<Id>, now: nat, limit: nat)
    requires Repaired(r0, w0, r1, w1, drained, now) && DrainedBefore(r0, 3, limit, drained) && |r0| <= limit
    ensures forall id :: id in r1 && !r1[id].deleted ==> r1[id].sync == Synced
  {
    forall sync: Sync | sync != Synced
      ensures WithSync(r1, sync) == {}
    {
      assert Turn(sync) < 3;
      StateDrained(r0, w0, r1, w1, drained, now, limit, sync);
    }
    assert forall id :: id in r1 && !r1[id].deleted ==> id in WithSync(r1, r1[id].sync);
  }

  lemma SplitCount(some: set<Id>, part: set<Id>)
    ensures |some - part| == |some| - |part * some|
  {
    assert some == (some - part) + (part * some);
  }

  /** A pass that began at `r0` and `w0` has tried the first `i` listed rows. */
  ghost predicate Progress(r0: map<Id, Row>, w0: set<Id>, r1: map<Id, Row>, w1: set<Id>, drained: set<Id>,
                           ids: seq<Id>, i: nat, faults: Id -> Fault, now: nat) {
    i <= |ids| && Repaired(r0, w0, r1, w1, drained, now) && drained <= Elements(ids[..i]) <= Elements(ids) &&
    (Healthy(faults) ==> drained == Elements(ids[..i]))
  }

  ghost predicate Waiting(rows: map<Id, Row>, ids: seq<Id>) {
    forall id :: id in ids ==> id in rows && !rows[id].deleted && rows[id].sync != Synced
  }

  lemma {:induction false} SubsetFewer(a: set<Id>, b: set<Id>)
    requires a <= b
    ensures |a| <= |b|
  {
    if a != {} {
      var x :| x in a;
      SubsetFewer(a - {x}, b - {x});
    }
  }

  lemma DrainedAll(rows: map<Id, Row>, sync: Sync, limit: nat, ids: seq<Id>)
    requires Lists(rows, sync, limit, ids)
    ensures DrainsOldest(rows, sync, limit, Elements(ids)) && |ids| <= |rows|
  {
    var drained := Elements(ids);
    ElementsCount(ids);
    assert drained * WithSync(rows, sync) == drained;
    SubsetFewer(drained, rows.Keys);
    assert |rows.Keys| == |rows|;
  }
}
