/** Which stored credentials are lost for good in the saga of `ClusterSaga`: nothing uses them and
    nothing will ever delete them. */
module ClusterLeaks {
  import opened Order
  import opened ClusterSaga

  /** The request may still delete the ref, or has yet to hand it on. */
  ghost predicate InHand(s: State, r: Request, credRef: Ref) {
    match r
    case Created(_, initialRef) => initialRef == credRef
    case Compensating(_, initialRef) => initialRef == credRef
    case Claimed(event) => event < |s.events| && s.events[event].oldRef == credRef
    case _ => OwnRef(r) == Some(credRef)
  }

  ghost predicate Idle(s: State, credRef: Ref) {
    forall req :: req in s.requests ==> !InHand(s, s.requests[req], credRef)
  }

  /** A live cluster uses the ref, or a cleanup event waits for it. */
  ghost predicate Served(s: State, credRef: Ref) {
    (exists id :: Live(s, id) && s.clusters[id].credRef == credRef) ||
    (exists i :: 0 <= i < |s.events| && s.events[i] == Event(credRef, Waiting))
  }

  ghost predicate Leaked(s: State, credRef: Ref) {
    credRef in s.creds && Idle(s, credRef) && !Served(s, credRef)
  }

  // ---- A leak is for good ----

  /** What no step can undo about a leaked ref. */
  lemma LeakStays(s: State, a: Step, credRef: Ref)
    requires Inv(s) && Leaked(s, credRef)
    ensures credRef in Next(s, a).creds
  {
    if !a.EditCluster? && !a.SoftDelete? && a.req in s.requests {
      assert !InHand(s, s.requests[a.req], credRef);
    }
  }

  lemma EventsKeepRefs(s: State, a: Step, event: nat)
    requires event < |s.events|
    ensures event < |Next(s, a).events| && Next(s, a).events[event].oldRef == s.events[event].oldRef
  {
  }

  lemma RotationStaysIdle(s: State, a: Step, credRef: Ref)
    requires a.RotateLoad? || a.RotatePut? || a.RotateProbe? || a.RotateCas? || a.RotateUndo? || a.RotateEnqueue?
    requires Inv(s) && Leaked(s, credRef) && a.req in Next(s, a).requests
    ensures !InHand(Next(s, a), Next(s, a).requests[a.req], credRef)
  {
    assert Accounted(s, credRef);
    if a.req in s.requests {
      assert !InHand(s, s.requests[a.req], credRef) && RequestOk(s, a.req, s.requests[a.req]);
    }
  }

  /** A request that begins or moves on does not pick up a leaked ref. */
  lemma MoverStaysIdle(s: State, a: Step, credRef: Ref)
    requires Inv(s) && Leaked(s, credRef)
    ensures !a.EditCluster? && !a.SoftDelete? && a.req in Next(s, a).requests ==>
              !InHand(Next(s, a), Next(s, a).requests[a.req], credRef)
  {
    if a.RotateLoad? || a.RotatePut? || a.RotateProbe? || a.RotateCas? || a.RotateUndo? || a.RotateEnqueue? {
      if a.req in Next(s, a).requests {
        RotationStaysIdle(s, a, credRef);
      }
    } else {
      assert Accounted(s, credRef);
      if !a.EditCluster? && !a.SoftDelete? && a.req in s.requests {
        assert !InHand(s, s.requests[a.req], credRef);
      }
    }
  }

  lemma RotationLeavesOthers(s: State, a: Step, req: nat)
    requires a.RotateLoad? || a.RotatePut? || a.RotateProbe? || a.RotateCas? || a.RotateUndo? || a.RotateEnqueue?
    requires req in Next(s, a).requests && a.req != req
    ensures req in s.requests && Next(s, a).requests[req] == s.requests[req]
  {
  }

  lemma OthersUnchanged(s: State, a: Step, req: nat)
    requires req in Next(s, a).requests && (a.EditCluster? || a.SoftDelete? || a.req != req)
    ensures req in s.requests && Next(s, a).requests[req] == s.requests[req]
  {
    if a.RotateLoad? || a.RotatePut? || a.RotateProbe? || a.RotateCas? || a.RotateUndo? || a.RotateEnqueue? {
      RotationLeavesOthers(s, a, req);
    }
  }

  lemma LeakStaysIdle(s: State, a: Step, credRef: Ref)
    requires Inv(s) && Leaked(s, credRef)
    ensures Idle(Next(s, a), credRef)
  {
    MoverStaysIdle(s, a, credRef);
    var t := Next(s, a);
    forall req | req in t.requests
      ensures !InHand(t, t.requests[req], credRef)
    {
      if a.EditCluster? || a.SoftDelete? || a.req != req {
        OthersUnchanged(s, a, req);
        assert !InHand(s, s.requests[req], credRef) && RequestOk(s, req, s.requests[req]);
        if s.requests[req].Claimed? {
          EventsKeepRefs(s, a, s.requests[req].event);
        }
      }
    }
  }

  lemma LeakStaysUnserved(s: State, a: Step, credRef: Ref)
    requires Inv(s) && Leaked(s, credRef)
    ensures !Served(Next(s, a), credRef)
  {
    assert Accounted(s, credRef);
    if !a.EditCluster? && !a.SoftDelete? && a.req in s.requests {
      assert !InHand(s, s.requests[a.req], credRef) && RequestOk(s, a.req, s.requests[a.req]);
    }
    var t := Next(s, a);
    assert forall i :: 0 <= i < |s.events| ==> s.events[i] != Event(credRef, Waiting);
    forall i | 0 <= i < |t.events|
      ensures t.events[i] != Event(credRef, Waiting)
    {
      assert i < |s.events| ==> s.events[i] != Event(credRef, Waiting);
    }
    forall id | Live(t, id)
      ensures t.clusters[id].credRef != credRef
    {
      assert Live(s, id) ==> s.clusters[id].credRef != credRef;
    }
  }

  lemma LeakStep(s: State, a: Step, credRef: Ref)
    requires Inv(s) && Leaked(s, credRef)
    ensures Leaked(Next(s, a), credRef)
  {
    LeakStays(s, a, credRef);
    LeakStaysIdle(s, a, credRef);
    LeakStaysUnserved(s, a, credRef);
  }

  lemma {:induction false} LeakOutlasts(s: State, more: seq<Step>, credRef: Ref)
    requires Inv(s) && Leaked(s, credRef)
    ensures Inv(Run(s, more)) && Leaked(Run(s, more), credRef)
    decreases |more|
  {
    if more != [] {
      var init := more[..|more| - 1];
      LeakOutlasts(s, init, credRef);
      StepKeepsInv(Run(s, init), more[|more| - 1]);
      LeakStep(Run(s, init), more[|more| - 1], credRef);
    }
  }

  /** A leaked credential stays stored, unused and undeletable whatever happens after the run. */
  lemma LeakIsForever(steps: seq<Step>, more: seq<Step>, credRef: Ref)
    requires Leaked(Run(EMPTY, steps), credRef)
    ensures Leaked(Run(Run(EMPTY, steps), more), credRef)
  {
    RunKeepsInv(steps);
    LeakOutlasts(Run(EMPTY, steps), more, credRef);
  }

  // ---- What makes a leak ----

  /** The steps whose failure the code ignores: a request stops while it is responsible for a ref,
      its compensating delete fails, or its cleanup event is not enqueued. */
  ghost predicate LetsGo(s: State, a: Step, credRef: Ref) {
    (a.Crash? || (a.RotateUndo? && !a.ok) || (a.RotateEnqueue? && !a.ok)) &&
    a.req in s.requests && OwnRef(s.requests[a.req]) == Some(credRef) &&
    (a.RotateUndo? ==> s.requests[a.req].Undoing?) && (a.RotateEnqueue? ==> s.requests[a.req].Committed?)
  }

  /** Some step of the run let the ref go. */
  ghost predicate LetGo(steps: seq<Step>, credRef: Ref)
    decreases |steps|
  {
    steps != [] &&
    (LetGo(steps[..|steps| - 1], credRef) || LetsGo(Run(EMPTY, steps[..|steps| - 1]), steps[|steps| - 1], credRef))
  }

  lemma QuietStep(s: State, a: Step)
    requires !a.CreateTx? && !a.RotatePut? && !a.RotateCas? && !a.RotateUndo? && !a.RotateEnqueue? && !a.Crash?
    ensures Next(s, a).roles == s.roles
  {
  }

  lemma RotationOrphans(s: State, a: Step, credRef: Ref)
    requires Inv(s) && (a.CreateTx? || a.RotatePut? || a.RotateCas?)
    ensures HasRole(Next(s, a).roles, credRef, Orphaned) <==> HasRole(s.roles, credRef, Orphaned)
  {
    assert a.req in s.requests ==> RequestOk(s, a.req, s.requests[a.req]);
  }

  lemma EndOrphans(s: State, a: Step, credRef: Ref)
    requires Inv(s) && (a.RotateUndo? || a.RotateEnqueue? || a.Crash?)
    ensures HasRole(Next(s, a).roles, credRef, Orphaned) <==>
              HasRole(s.roles, credRef, Orphaned) || LetsGo(s, a, credRef)
  {
    assert a.req in s.requests ==> RequestOk(s, a.req, s.requests[a.req]);
  }

  lemma OrphanedOnlyBy(s: State, a: Step, credRef: Ref)
    requires Inv(s)
    ensures HasRole(Next(s, a).roles, credRef, Orphaned) <==>
              HasRole(s.roles, credRef, Orphaned) || LetsGo(s, a, credRef)
  {
    if a.CreateTx? || a.RotatePut? || a.RotateCas? {
      RotationOrphans(s, a, credRef);
    } else if a.RotateUndo? || a.RotateEnqueue? || a.Crash? {
      EndOrphans(s, a, credRef);
    } else {
      QuietStep(s, a);
    }
  }

  lemma {:induction false} OrphanedMeansLetGo(steps: seq<Step>, credRef: Ref)
    ensures HasRole(Run(EMPTY, steps).roles, credRef, Orphaned) <==> LetGo(steps, credRef)
    decreases |steps|
  {
    if steps != [] {
      var init := steps[..|steps| - 1];
      RunKeepsInv(init);
      OrphanedMeansLetGo(init, credRef);
      OrphanedOnlyBy(Run(EMPTY, init), steps[|steps| - 1], credRef);
    }
  }

  /** The current ref of a deleted cluster: deleting a cluster neither deletes its credential nor
      enqueues its cleanup. */
  ghost predicate LeftByDelete(s: State, credRef: Ref) {
    exists id :: id in s.clusters && s.clusters[id].deleted && s.clusters[id].credRef == credRef
  }

  /** The cleanup of the ref used up its retries. */
  ghost predicate GivenUp(s: State, credRef: Ref) {
    exists i :: 0 <= i < |s.events| && s.events[i] == Event(credRef, Failed)
  }

  /** Exactly when a stored credential that no request has in hand is lost: some request
      responsible for it stopped, its delete or its enqueue failed, its cluster was deleted, or its
      cleanup event failed. */
  lemma LeaksExactly(steps: seq<Step>, credRef: Ref)
    requires credRef in Run(EMPTY, steps).creds && Idle(Run(EMPTY, steps), credRef)
    ensures var s := Run(EMPTY, steps);
            Leaked(s, credRef) <==> LetGo(steps, credRef) || LeftByDelete(s, credRef) || GivenUp(s, credRef)
  {
    var s := Run(EMPTY, steps);
    RunKeepsInv(steps);
    OrphanedMeansLetGo(steps, credRef);
    LeakCauses(s, credRef);
  }

  lemma LeakCauses(s: State, credRef: Ref)
    requires Inv(s) && credRef in s.creds && Idle(s, credRef)
    ensures Leaked(s, credRef) <==>
            HasRole(s.roles, credRef, Orphaned) || LeftByDelete(s, credRef) || GivenUp(s, credRef)
  {
    assert Accounted(s, credRef);
    forall req | req in s.requests
      ensures OwnRef(s.requests[req]) != Some(credRef)
    {
      assert !InHand(s, s.requests[req], credRef);
    }
    if s.roles[credRef] == Retired {
      var i :| 0 <= i < |s.events| && s.events[i].oldRef == credRef && s.events[i].state != Done;
      assert s.events[i] == Event(credRef, Waiting) || s.events[i] == Event(credRef, Failed);
    }
  }

  /** Deleting a cluster while no request has its credential in hand loses the credential. */
  lemma DeletedClusterLeaks(s: State, id: Id)
    requires Inv(s) && Live(s, id) && s.clusters[id].credRef in s.creds && Idle(s, s.clusters[id].credRef)
    ensures Leaked(SoftDeleteStep(s, id), s.clusters[id].credRef)
  {
    var t := SoftDeleteStep(s, id);
    SoftDeleteKeepsInv(s, id);
    forall req | req in t.requests
      ensures !InHand(t, t.requests[req], s.clusters[id].credRef)
    {
      assert !InHand(s, s.requests[req], s.clusters[id].credRef);
    }
    assert t.clusters[id].deleted && t.clusters[id].credRef == s.clusters[id].credRef;
    LeakCauses(t, s.clusters[id].credRef);
  }

  /** A process that stops between the commit and the enqueue loses the old credential. */
  lemma StopAfterCommitLeaks(s: State, req: nat)
    requires Inv(s) && req in s.requests && s.requests[req].Committed? && s.requests[req].oldRef in s.creds
    requires Idle(Finish(s, req), s.requests[req].oldRef)
    ensures Leaked(CrashStep(s, req), s.requests[req].oldRef)
  {
    var t, credRef := CrashStep(s, req), s.requests[req].oldRef;
    CrashKeepsInv(s, req);
    forall other | other in t.requests
      ensures !InHand(t, t.requests[other], credRef)
    {
      assert !InHand(Finish(s, req), Finish(s, req).requests[other], credRef);
    }
    LeakCauses(t, credRef);
  }

  // ---- Two runs that leak ----

  lemma Extend(s: State, steps: seq<Step>, a: Step, t: State) returns (longer: seq<Step>)
    requires Run(EMPTY, steps) == s && Next(s, a) == t
    ensures Run(EMPTY, longer) == t
  {
    longer := steps + [a];
    assert longer[..|longer| - 1] == steps;
  }

  const CREATED := State(map[7 := Cluster(10, 1, 1, false)], map[10 := Cred(7, 1)], [],
                         map[], map[10 := Current(7)], {}, [])

  lemma CreatedRun() returns (steps: seq<Step>)
    ensures Run(EMPTY, steps) == CREATED
  {
    var begun := CREATED.(requests := map[0 := Created(7, 10)]);
    steps := Extend(EMPTY, [], CreateTx(0, 7, 10), begun);
    steps := Extend(begun, steps, CreateAuthz(0, true), CREATED);
  }

  /** A cluster is created and deleted: its credential stays for ever. */
  lemma CreateThenDeleteLeaks() returns (steps: seq<Step>)
    ensures Leaked(Run(EMPTY, steps), 10)
  {
    steps := CreatedRun();
    RunKeepsInv(steps);
    DeletedClusterLeaks(CREATED, 7);
    steps := Extend(CREATED, steps, SoftDelete(7), SoftDeleteStep(CREATED, 7));
  }

  const STORED := CREATED.(
    creds := map[10 := Cred(7, 1), 11 := Cred(7, 2)],
    requests := map[1 := Stored(7, 1, 10, 1, 11)],
    roles := map[10 := Current(7), 11 := Pending(1)])

  lemma StoredRun() returns (steps: seq<Step>)
    ensures Run(EMPTY, steps) == STORED
  {
    steps := CreatedRun();
    var loaded := CREATED.(requests := map[1 := Loaded(7, 1, 10, 1)]);
    steps := Extend(CREATED, steps, RotateLoad(1, 7, 1), loaded);
    assert !RevisionTaken(loaded, 7, 2);
    steps := Extend(loaded, steps, RotatePut(1, 11, true), STORED);
  }

  const COMMITTED := State(
    map[7 := Cluster(11, 2, 2, false)], map[10 := Cred(7, 1), 11 := Cred(7, 2)], [],
    map[1 := Committed(10)], map[10 := Retiring(1), 11 := Current(7)], {}, [Commit(7, 1)])

  const PROBED := STORED.(requests := map[1 := Probed(7, 1, 10, 1, 11)])

  lemma CasCommits()
    ensures RotateCasStep(PROBED, 1, true) == COMMITTED
  {
    var t := RotateCasStep(PROBED, 1, true);
    assert t.roles == COMMITTED.roles;
    assert t.clusters == COMMITTED.clusters;
    assert t.requests == COMMITTED.requests;
    assert t.commits == COMMITTED.commits;
  }

  lemma CommittedRun() returns (steps: seq<Step>)
    ensures Run(EMPTY, steps) == COMMITTED
  {
    steps := StoredRun();
    steps := Extend(STORED, steps, RotateProbe(1, true), PROBED);
    CasCommits();
    steps := Extend(PROBED, steps, RotateCas(1, true), COMMITTED);
  }

  /** A rotation commits and its process stops before it enqueues the cleanup. */
  lemma CommitThenStopLeaks() returns (steps: seq<Step>)
    ensures Leaked(Run(EMPTY, steps), 10)
  {
    steps := CommittedRun();
    RunKeepsInv(steps);
    StopAfterCommitLeaks(COMMITTED, 1);
    steps := Extend(COMMITTED, steps, Crash(1), CrashStep(COMMITTED, 1));
  }
}
