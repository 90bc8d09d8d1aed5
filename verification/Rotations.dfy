/** Exactly when a rotation commits, and what becomes of the credentials it replaces or gives up:
    RotateCredential of internal/biz/cluster_usecase.go and the cleanup worker of
    internal/data/kubernetes_outbox_worker.go, over every run of `ClusterSaga`. */
module Rotations {
  import opened Order
  import opened ClusterSaga

  ghost predicate StepAt(run: seq<State>, steps: seq<Step>, k: nat) {
    k < |steps| && k + 1 < |run| && run[k + 1] == Next(run[k], steps[k])
  }

  /** A run with its states: `run[k]` is the one before step `k`, and the last one ends the run. */
  ghost predicate Follows(run: seq<State>, steps: seq<Step>) {
    |run| == |steps| + 1 && run[0] == EMPTY && forall k: nat :: k < |steps| ==> StepAt(run, steps, k)
  }

  lemma {:induction false} InvAlong(run: seq<State>, steps: seq<Step>, k: nat)
    requires Follows(run, steps) && k < |run|
    ensures Inv(run[k])
    decreases k
  {
    if k == 0 {
      RunKeepsInv([]);
    } else {
      InvAlong(run, steps, k - 1);
      assert StepAt(run, steps, k - 1);
      StepKeepsInv(run[k - 1], steps[k - 1]);
    }
  }

  // ---- A request from step to step ----

  ghost predicate Holds(run: seq<State>, k: nat, req: nat, x: Request) {
    k < |run| && req in run[k].requests && run[k].requests[req] == x
  }

  /** The step that a request at `x` takes, whatever comes of it. A put takes a ref never used before. */
  predicate Takes(s: State, x: Request, a: Step, req: nat) {
    match x
    case Created(_, _) => a.CreateAuthz? && a.req == req
    case Compensating(_, _) => a.CreateUndo? && a.req == req
    case Loaded(_, _, _, _) => a.RotatePut? && a.req == req && a.newRef !in s.roles
    case Stored(_, _, _, _, _) => a.RotateProbe? && a.req == req
    case Probed(_, _, _, _, _) => a.RotateCas? && a.req == req
    case Undoing(_) => a.RotateUndo? && a.req == req
    case Committed(_) => a.RotateEnqueue? && a.req == req
    case Claimed(event) => a.WorkerDelete? && a.req == req && event < |s.events|
    case Deleted(event) => a.WorkerAck? && a.req == req && event < |s.events|
  }

  /** Between steps `i` and `j` the request takes no step and does not stop. */
  ghost predicate Waits(run: seq<State>, steps: seq<Step>, i: nat, j: nat, req: nat, x: Request) {
    j <= |steps| && j < |run| &&
    forall k: nat :: i < k < j ==> !Takes(run[k], x, steps[k], req) && steps[k] != Crash(req)
  }

  ghost predicate GoesOn(run: seq<State>, steps: seq<Step>, i: nat, j: nat, req: nat, x: Request) {
    i < j < |steps| && j < |run| && Takes(run[j], x, steps[j], req) && Waits(run, steps, i, j, req, x)
  }

  predicate IsRotation(a: Step) {
    a.RotateLoad? || a.RotatePut? || a.RotateProbe? || a.RotateCas? || a.RotateUndo? || a.RotateEnqueue?
  }

  lemma StaysInRotation(t: State, a: Step, req: nat, x: Request)
    requires req in t.requests && t.requests[req] == x && !Takes(t, x, a, req) && IsRotation(a)
    ensures req in Next(t, a).requests && Next(t, a).requests[req] == x
  {
  }

  lemma StaysOtherwise(t: State, a: Step, req: nat, x: Request)
    requires req in t.requests && t.requests[req] == x && !Takes(t, x, a, req) && a != Crash(req) && !IsRotation(a)
    ensures req in Next(t, a).requests && Next(t, a).requests[req] == x
  {
  }

  lemma RequestStays(t: State, a: Step, req: nat, x: Request)
    requires req in t.requests && t.requests[req] == x && !Takes(t, x, a, req) && a != Crash(req)
    ensures req in Next(t, a).requests && Next(t, a).requests[req] == x
  {
    if IsRotation(a) {
      StaysInRotation(t, a, req, x);
    } else {
      StaysOtherwise(t, a, req, x);
    }
  }

  lemma RequestMoves(t: State, a: Step, req: nat, x: Request)
    requires req in t.requests && t.requests[req] == x
    requires req in Next(t, a).requests && Next(t, a).requests[req] == x
    ensures !Takes(t, x, a, req) && a != Crash(req)
  {
  }

  lemma {:induction false} WaitingHolds(run: seq<State>, steps: seq<Step>, i: nat, j: nat, req: nat, x: Request)
    requires Follows(run, steps) && i < j && Holds(run, i + 1, req, x) && Waits(run, steps, i, j, req, x)
    ensures Holds(run, j, req, x)
    decreases j
  {
    if i + 1 < j {
      WaitingHolds(run, steps, i, j - 1, req, x);
      RequestStays(run[j - 1], steps[j - 1], req, x);
      assert StepAt(run, steps, j - 1);
    }
  }

  ghost predicate GetsTo(t: State, a: Step, req: nat, x: Request) {
    req in Next(t, a).requests && Next(t, a).requests[req] == x && !(req in t.requests && t.requests[req] == x)
  }

  lemma WaitsLonger(run: seq<State>, steps: seq<Step>, i: nat, j: nat, req: nat, x: Request)
    requires i < j < |steps| && j + 1 < |run| && Waits(run, steps, i, j, req, x)
    requires !Takes(run[j], x, steps[j], req) && steps[j] != Crash(req)
    ensures Waits(run, steps, i, j + 1, req, x)
  {
  }

  /** The step at which a rotation got to where it stands. */
  lemma {:induction false} Origin(run: seq<State>, steps: seq<Step>, n: nat, req: nat, x: Request) returns (c: nat)
    requires Follows(run, steps) && Holds(run, n, req, x)
    ensures c < n && GetsTo(run[c], steps[c], req, x) && Waits(run, steps, c, n, req, x)
    decreases n
  {
    assert n > 0;
    assert StepAt(run, steps, n - 1);
    if Holds(run, n - 1, req, x) {
      c := Origin(run, steps, n - 1, req, x);
      RequestMoves(run[n - 1], steps[n - 1], req, x);
      WaitsLonger(run, steps, c, n - 1, req, x);
    } else {
      c := n - 1;
    }
  }

  // ---- The steps of one rotation ----

  /** One request from its load of the cluster row to its compare-and-set. */
  datatype Trail = Trail(
    req: nat, expected: nat, oldRef: Ref, credRevision: nat, load: nat, put: nat, probe: nat, cas: nat)

  /** The request loads the live cluster at the revision the caller expects. */
  ghost predicate Loads(run: seq<State>, steps: seq<Step>, m: Trail, id: Id) {
    m.load < |steps| && m.load < |run| && steps[m.load] == RotateLoad(m.req, id, m.expected) &&
    var t := run[m.load];
    m.req !in t.requests && id in t.clusters &&
    t.clusters[id] == Cluster(m.oldRef, m.credRevision, m.expected, false)
  }

  /** The request then stores the new credential under the next revision, which is free. */
  ghost predicate Puts(run: seq<State>, steps: seq<Step>, m: Trail, id: Id, newRef: Ref) {
    GoesOn(run, steps, m.load, m.put, m.req, ClusterSaga.Loaded(id, m.expected, m.oldRef, m.credRevision)) &&
    steps[m.put] == RotatePut(m.req, newRef, true) &&
    forall r :: r in run[m.put].creds ==> run[m.put].creds[r] != Cred(id, m.credRevision + 1)
  }

  /** The request then probes the cluster with it, successfully. */
  ghost predicate Probes(run: seq<State>, steps: seq<Step>, m: Trail, id: Id, newRef: Ref) {
    GoesOn(run, steps, m.put, m.probe, m.req, Stored(id, m.expected, m.oldRef, m.credRevision, newRef)) &&
    steps[m.probe] == RotateProbe(m.req, true)
  }

  /** The request then finds the cluster live at the revision it loaded. */
  ghost predicate Commits(run: seq<State>, steps: seq<Step>, m: Trail, id: Id, newRef: Ref) {
    GoesOn(run, steps, m.probe, m.cas, m.req, Probed(id, m.expected, m.oldRef, m.credRevision, newRef)) &&
    steps[m.cas] == RotateCas(m.req, true) &&
    var t := run[m.cas];
    id in t.clusters && !t.clusters[id].deleted && t.clusters[id].revision == m.expected
  }

  ghost predicate RotatedBy(run: seq<State>, steps: seq<Step>, m: Trail, id: Id, newRef: Ref) {
    Loads(run, steps, m, id) && Puts(run, steps, m, id, newRef) && Probes(run, steps, m, id, newRef) &&
    Commits(run, steps, m, id, newRef)
  }

  /** Step `k` makes `newRef` the credential of a cluster that had another one. */
  ghost predicate Rotates(run: seq<State>, k: nat, id: Id, newRef: Ref) {
    k + 1 < |run| && id in run[k].clusters && id in run[k + 1].clusters &&
    run[k].clusters[id].credRef != newRef && run[k + 1].clusters[id].credRef == newRef
  }

  // ---- From the commit back to the load ----

  lemma LoadedBy(t: State, a: Step, req: nat, x: Request)
    requires x.Loaded? && GetsTo(t, a, req, x)
    ensures a == RotateLoad(req, x.id, x.expected) && req !in t.requests && x.id in t.clusters
    ensures t.clusters[x.id] == Cluster(x.oldRef, x.credRevision, x.expected, false)
  {
  }

  lemma StoredBy(t: State, a: Step, req: nat, x: Request)
    requires x.Stored? && GetsTo(t, a, req, x)
    ensures a == RotatePut(req, x.newRef, true) && x.newRef !in t.roles
    ensures req in t.requests && t.requests[req] == ClusterSaga.Loaded(x.id, x.expected, x.oldRef, x.credRevision)
    ensures forall r :: r in t.creds ==> t.creds[r] != Cred(x.id, x.credRevision + 1)
  {
  }

  lemma ProbedBy(t: State, a: Step, req: nat, x: Request)
    requires x.Probed? && GetsTo(t, a, req, x)
    ensures a == RotateProbe(req, true)
    ensures req in t.requests && t.requests[req] == Stored(x.id, x.expected, x.oldRef, x.credRevision, x.newRef)
  {
  }

  lemma CommittedBy(t: State, a: Step, id: Id) returns (req: nat)
    requires id in t.clusters && id in Next(t, a).clusters && Next(t, a).clusters[id].credRef != t.clusters[id].credRef
    ensures a == RotateCas(req, true) && req in t.requests && t.requests[req].Probed? && t.requests[req].id == id
    ensures !t.clusters[id].deleted && t.clusters[id].revision == t.requests[req].expected
    ensures Next(t, a).clusters[id].credRef == t.requests[req].newRef
  {
    assert a.RotateCas?;
    req := a.req;
  }

  lemma BackToLoad(run: seq<State>, steps: seq<Step>, n: nat, req: nat, x: Request) returns (m: Trail)
    requires Follows(run, steps) && x.Probed? && Holds(run, n, req, x)
    ensures m.req == req && m.expected == x.expected && m.oldRef == x.oldRef && m.credRevision == x.credRevision
    ensures Loads(run, steps, m, x.id) && Puts(run, steps, m, x.id, x.newRef) && Probes(run, steps, m, x.id, x.newRef)
    ensures m.probe < n && m.cas == n && Waits(run, steps, m.probe, n, req, x)
  {
    var probe := Origin(run, steps, n, req, x);
    ProbedBy(run[probe], steps[probe], req, x);
    var x2 := Stored(x.id, x.expected, x.oldRef, x.credRevision, x.newRef);
    var put := Origin(run, steps, probe, req, x2);
    StoredBy(run[put], steps[put], req, x2);
    var x1 := ClusterSaga.Loaded(x.id, x.expected, x.oldRef, x.credRevision);
    var load := Origin(run, steps, put, req, x1);
    LoadedBy(run[load], steps[load], req, x1);
    m := Trail(req, x.expected, x.oldRef, x.credRevision, load, put, probe, n);
  }

  // ---- From the load on to the commit ----

  ghost predicate Leads(t: State, a: Step, req: nat, y: Request) {
    req in Next(t, a).requests && Next(t, a).requests[req] == y
  }

  lemma Advance(run: seq<State>, steps: seq<Step>, i: nat, j: nat, req: nat, x: Request, y: Request)
    requires Follows(run, steps) && GoesOn(run, steps, i, j, req, x) && Holds(run, i + 1, req, x)
    requires Holds(run, j, req, x) ==> Leads(run[j], steps[j], req, y)
    ensures Holds(run, j + 1, req, y)
  {
    WaitingHolds(run, steps, i, j, req, x);
    assert StepAt(run, steps, j);
  }

  lemma LoadPasses(t: State, req: nat, id: Id, c: Cluster)
    requires req !in t.requests && id in t.clusters && t.clusters[id] == c && !c.deleted
    ensures Leads(t, RotateLoad(req, id, c.revision), req,
                  ClusterSaga.Loaded(id, c.revision, c.credRef, c.credRevision))
  {
  }

  lemma PutPasses(t: State, req: nat, x: Request, newRef: Ref)
    requires x.Loaded? && req in t.requests && t.requests[req] == x && newRef !in t.roles
    requires forall r :: r in t.creds ==> t.creds[r] != Cred(x.id, x.credRevision + 1)
    ensures Leads(t, RotatePut(req, newRef, true), req, Stored(x.id, x.expected, x.oldRef, x.credRevision, newRef))
  {
  }

  /** A probe goes on with the rotation exactly when it succeeds; otherwise the new credential is undone. */
  lemma ProbeDecides(t: State, req: nat, x: Request, ok: bool)
    requires x.Stored? && req in t.requests && t.requests[req] == x
    ensures Next(t, RotateProbe(req, ok)) ==
            t.(requests := t.requests[req := if ok then Probed(x.id, x.expected, x.oldRef, x.credRevision, x.newRef)
                                             else Undoing(x.newRef)])
  {
  }

  lemma CasPasses(t: State, req: nat, x: Request)
    requires x.Probed? && req in t.requests && t.requests[req] == x
    requires x.id in t.clusters && !t.clusters[x.id].deleted && t.clusters[x.id].revision == x.expected
    ensures var u := Next(t, RotateCas(req, true));
            u.clusters == t.clusters[x.id := Cluster(x.newRef, x.credRevision + 1, x.expected + 1, false)] &&
            u.commits == t.commits + [Commit(x.id, x.expected)]
  {
  }

  lemma TrailHolds(run: seq<State>, steps: seq<Step>, m: Trail, id: Id, newRef: Ref)
    requires Follows(run, steps) && RotatedBy(run, steps, m, id, newRef)
    ensures Holds(run, m.cas, m.req, Probed(id, m.expected, m.oldRef, m.credRevision, newRef))
  {
    var x1 := ClusterSaga.Loaded(id, m.expected, m.oldRef, m.credRevision);
    var x2 := Stored(id, m.expected, m.oldRef, m.credRevision, newRef);
    var x3 := Probed(id, m.expected, m.oldRef, m.credRevision, newRef);
    LoadPasses(run[m.load], m.req, id, run[m.load].clusters[id]);
    assert StepAt(run, steps, m.load);
    if Holds(run, m.put, m.req, x1) {
      PutPasses(run[m.put], m.req, x1, newRef);
    }
    Advance(run, steps, m.load, m.put, m.req, x1, x2);
    if Holds(run, m.probe, m.req, x2) {
      ProbeDecides(run[m.probe], m.req, x2, true);
    }
    Advance(run, steps, m.put, m.probe, m.req, x2, x3);
    WaitingHolds(run, steps, m.probe, m.cas, m.req, x3);
  }

  lemma PendingIsNotCurrent(s: State, req: nat, x: Request, id: Id)
    requires Inv(s) && x.Probed? && req in s.requests && s.requests[req] == x && id in s.clusters
    ensures s.clusters[id].credRef != x.newRef
  {
    assert RequestOk(s, req, x);
  }

  lemma NewRefIsNotCurrent(run: seq<State>, steps: seq<Step>, k: nat, req: nat, x: Request, id: Id)
    requires Follows(run, steps) && x.Probed? && Holds(run, k, req, x) && id in run[k].clusters
    ensures run[k].clusters[id].credRef != x.newRef
  {
    InvAlong(run, steps, k);
    PendingIsNotCurrent(run[k], req, x, id);
  }

  /** A committed rotation writes the row and the history of commits at once. */
  lemma TrailCommits(run: seq<State>, steps: seq<Step>, m: Trail, id: Id, newRef: Ref)
    requires Follows(run, steps) && RotatedBy(run, steps, m, id, newRef)
    ensures Rotates(run, m.cas, id, newRef)
    ensures run[m.cas + 1].clusters[id] == Cluster(newRef, m.credRevision + 1, m.expected + 1, false)
    ensures run[m.cas + 1].commits == run[m.cas].commits + [Commit(id, m.expected)]
  {
    var x := Probed(id, m.expected, m.oldRef, m.credRevision, newRef);
    TrailHolds(run, steps, m, id, newRef);
    CasPasses(run[m.cas], m.req, x);
    assert StepAt(run, steps, m.cas);
    NewRefIsNotCurrent(run, steps, m.cas, m.req, x, id);
  }

  /** In every run, a step gives a cluster another credential exactly when it is the compare-and-set
      of a request that loaded the live row, stored the credential under a free revision, probed the
      cluster with it successfully, and finds the row live and unchanged, without stopping. */
  lemma RotatesExactly(run: seq<State>, steps: seq<Step>, k: nat, id: Id, newRef: Ref)
    requires Follows(run, steps)
    ensures Rotates(run, k, id, newRef) <==> exists m: Trail :: m.cas == k && RotatedBy(run, steps, m, id, newRef)
  {
    if Rotates(run, k, id, newRef) {
      assert StepAt(run, steps, k);
      var req := CommittedBy(run[k], steps[k], id);
      var m := BackToLoad(run, steps, k, req, run[k].requests[req]);
      assert RotatedBy(run, steps, m, id, newRef);
    }
    if m: Trail :| m.cas == k && RotatedBy(run, steps, m, id, newRef) {
      TrailCommits(run, steps, m, id, newRef);
    }
  }

  /** Every commit in the history is such a rotation. */
  lemma EveryCommitRotates(run: seq<State>, steps: seq<Step>, k: nat) returns (m: Trail, id: Id, newRef: Ref)
    requires Follows(run, steps) && k < |steps| && run[k + 1].commits != run[k].commits
    ensures m.cas == k && RotatedBy(run, steps, m, id, newRef)
    ensures run[k + 1].commits == run[k].commits + [Commit(id, m.expected)]
  {
    assert StepAt(run, steps, k);
    assert steps[k].RotateCas?;
    var req := steps[k].req;
    var x := run[k].requests[req];
    id, newRef := x.id, x.newRef;
    m := BackToLoad(run, steps, k, req, x);
  }

  // ---- A credential that failed its probe ----

  /** The ref is being given up, or has been. */
  ghost predicate GivenUp(s: State, credRef: Ref) {
    credRef in s.roles &&
    match s.roles[credRef]
    case Dropped => true
    case Orphaned => true
    case Pending(req) => req in s.requests && s.requests[req] == Undoing(credRef)
    case _ => false
  }

  lemma CasKeepsGivenUp(s: State, req: nat, ok: bool, credRef: Ref)
    requires ClustersOk(s.clusters, s.roles, s.creds, s.compensated) && GivenUp(s, credRef)
    requires req in s.requests ==> RequestOk(s, req, s.requests[req])
    ensures GivenUp(RotateCasStep(s, req, ok), credRef)
  {
  }

  /** A step that gives a ref another role does so for the request's own ref. */
  lemma OwnerKeepsGivenUp(s: State, a: Step, credRef: Ref)
    requires (a.RotateUndo? || a.RotateEnqueue? || a.Crash?) && GivenUp(s, credRef)
    requires a.req in s.requests ==> RequestOk(s, a.req, s.requests[a.req])
    ensures GivenUp(Next(s, a), credRef)
  {
  }

  lemma OtherKeepsGivenUp(s: State, a: Step, credRef: Ref)
    requires !a.RotateCas? && !a.RotateUndo? && !a.RotateEnqueue? && !a.Crash? && GivenUp(s, credRef)
    ensures GivenUp(Next(s, a), credRef)
  {
  }

  lemma StepKeepsGivenUp(s: State, a: Step, credRef: Ref)
    requires Inv(s) && GivenUp(s, credRef)
    ensures GivenUp(Next(s, a), credRef)
  {
    if a.RotateCas? {
      CasKeepsGivenUp(s, a.req, a.ok, credRef);
    } else if a.RotateUndo? || a.RotateEnqueue? || a.Crash? {
      OwnerKeepsGivenUp(s, a, credRef);
    } else {
      OtherKeepsGivenUp(s, a, credRef);
    }
  }

  lemma {:induction false} GivenUpStays(run: seq<State>, steps: seq<Step>, i: nat, j: nat, credRef: Ref)
    requires Follows(run, steps) && i <= j < |run| && GivenUp(run[i], credRef)
    ensures GivenUp(run[j], credRef)
    decreases j
  {
    if i < j {
      GivenUpStays(run, steps, i, j - 1, credRef);
      InvAlong(run, steps, j - 1);
      assert StepAt(run, steps, j - 1);
      StepKeepsGivenUp(run[j - 1], steps[j - 1], credRef);
    }
  }

  /** A credential whose probe failed is never any cluster's credential afterwards. */
  lemma FailedProbeNeverCommits(run: seq<State>, steps: seq<Step>, p: nat, req: nat, x: Request, j: nat, id: Id)
    requires Follows(run, steps) && x.Stored? && p < j < |run| && Holds(run, p, req, x)
    requires steps[p] == RotateProbe(req, false) && id in run[j].clusters
    ensures run[j].clusters[id].credRef != x.newRef
  {
    InvAlong(run, steps, p);
    assert RequestOk(run[p], req, x);
    ProbeDecides(run[p], req, x, false);
    assert StepAt(run, steps, p);
    GivenUpStays(run, steps, p + 1, j, x.newRef);
    InvAlong(run, steps, j);
  }

  // ---- What becomes of replaced and given-up credentials ----

  /** A ref once allocated whose credential is gone never gets another one. */
  ghost predicate SpentRef(s: State, credRef: Ref) {
    credRef in s.roles && credRef !in s.creds
  }

  lemma StepKeepsSpent(s: State, a: Step, credRef: Ref)
    requires SpentRef(s, credRef)
    ensures SpentRef(Next(s, a), credRef)
  {
  }

  lemma {:induction false} SpentStays(run: seq<State>, steps: seq<Step>, i: nat, j: nat, credRef: Ref)
    requires Follows(run, steps) && i <= j < |run| && SpentRef(run[i], credRef)
    ensures SpentRef(run[j], credRef)
    decreases j
  {
    if i < j {
      SpentStays(run, steps, i, j - 1, credRef);
      assert StepAt(run, steps, j - 1);
      StepKeepsSpent(run[j - 1], steps[j - 1], credRef);
    }
  }

  lemma UndoDrops(t: State, req: nat, newRef: Ref)
    requires req in t.requests && t.requests[req] == Undoing(newRef)
    ensures SpentRef(Next(t, RotateUndo(req, true)), newRef)
  {
  }

  /** A credential whose probe failed is gone for good once its compensating delete takes effect. */
  lemma FailedProbeIsUndone(run: seq<State>, steps: seq<Step>, p: nat, u: nat, req: nat, x: Request, j: nat)
    requires Follows(run, steps) && x.Stored? && Holds(run, p, req, x) && p < |steps| &&
             steps[p] == RotateProbe(req, false)
    requires GoesOn(run, steps, p, u, req, Undoing(x.newRef)) && steps[u] == RotateUndo(req, true) && u < j < |run|
    ensures x.newRef !in run[j].creds
  {
    ProbeDecides(run[p], req, x, false);
    assert StepAt(run, steps, p);
    WaitingHolds(run, steps, p, u, req, Undoing(x.newRef));
    UndoDrops(run[u], req, x.newRef);
    assert StepAt(run, steps, u);
    SpentStays(run, steps, u + 1, j, x.newRef);
  }

  lemma CasReplaces(t: State, req: nat, x: Request)
    requires x.Probed? && req in t.requests && t.requests[req] == x
    requires x.id in t.clusters && !t.clusters[x.id].deleted && t.clusters[x.id].revision == x.expected
    ensures Leads(t, RotateCas(req, true), req, Committed(x.oldRef))
  {
  }

  lemma EnqueueAppends(t: State, req: nat, oldRef: Ref)
    requires req in t.requests && t.requests[req] == Committed(oldRef)
    ensures Next(t, RotateEnqueue(req, true)).events == t.events + [Event(oldRef, Waiting)]
  {
  }

  /** A committed rotation that goes on and whose enqueue takes effect leaves a waiting cleanup event
      for the credential it replaced. */
  lemma ReplacedIsEnqueued(run: seq<State>, steps: seq<Step>, m: Trail, id: Id, newRef: Ref, enq: nat)
    requires Follows(run, steps) && RotatedBy(run, steps, m, id, newRef)
    requires GoesOn(run, steps, m.cas, enq, m.req, Committed(m.oldRef)) && steps[enq] == RotateEnqueue(m.req, true)
    ensures run[enq + 1].events == run[enq].events + [Event(m.oldRef, Waiting)]
  {
    TrailHolds(run, steps, m, id, newRef);
    CasReplaces(run[m.cas], m.req, Probed(id, m.expected, m.oldRef, m.credRevision, newRef));
    assert StepAt(run, steps, m.cas);
    WaitingHolds(run, steps, m.cas, enq, m.req, Committed(m.oldRef));
    EnqueueAppends(run[enq], m.req, m.oldRef);
    assert StepAt(run, steps, enq);
  }

  lemma ClaimLeads(t: State, req: nat, event: nat)
    requires req !in t.requests && event < |t.events| && t.events[event].state == Waiting
    ensures Leads(t, WorkerClaim(req, event), req, Claimed(event))
  {
  }

  lemma DeleteDrops(t: State, req: nat, event: nat, last: bool)
    requires Inv(t) && req in t.requests && t.requests[req] == Claimed(event)
    ensures event < |t.events| && SpentRef(Next(t, WorkerDelete(req, true, last)), t.events[event].oldRef)
  {
    assert RequestOk(t, req, t.requests[req]);
  }

  /** The credential named by a waiting event that a worker claims is gone for good once the worker's
      delete takes effect. */
  lemma ClaimedIsDeleted(run: seq<State>, steps: seq<Step>, c: nat, d: nat, req: nat, event: nat, last: bool, j: nat)
    requires Follows(run, steps) && c < |steps| && steps[c] == WorkerClaim(req, event) && req !in run[c].requests
    requires event < |run[c].events| && run[c].events[event].state == Waiting
    requires GoesOn(run, steps, c, d, req, Claimed(event)) && steps[d] == WorkerDelete(req, true, last) && d < j < |run|
    ensures event < |run[d].events| && run[d].events[event].oldRef !in run[j].creds
  {
    ClaimLeads(run[c], req, event);
    assert StepAt(run, steps, c);
    WaitingHolds(run, steps, c, d, req, Claimed(event));
    InvAlong(run, steps, d);
    DeleteDrops(run[d], req, event, last);
    assert StepAt(run, steps, d);
    SpentStays(run, steps, d + 1, j, run[d].events[event].oldRef);
  }

  lemma CreateLeads(t: State, req: nat, id: Id, initialRef: Ref)
    requires req !in t.requests && id !in t.clusters && initialRef !in t.roles
    requires forall r :: r in t.creds ==> t.creds[r] != Cred(id, 1)
    ensures var u := Next(t, CreateTx(req, id, initialRef));
            Leads(t, CreateTx(req, id, initialRef), req, Created(id, initialRef)) && initialRef in u.roles &&
            id in u.clusters && u.clusters[id] == Cluster(initialRef, 1, 1, false) &&
            initialRef in u.creds && u.creds[initialRef] == Cred(id, 1)
  {
  }

  lemma {:induction false} RolesStay(run: seq<State>, steps: seq<Step>, i: nat, j: nat, credRef: Ref)
    requires Follows(run, steps) && i <= j < |run| && credRef in run[i].roles
    ensures credRef in run[j].roles
    decreases j
  {
    if i < j {
      RolesStay(run, steps, i, j - 1, credRef);
      assert StepAt(run, steps, j - 1);
    }
  }

  lemma AuthzDecides(t: State, req: nat, id: Id, initialRef: Ref)
    requires req in t.requests && t.requests[req] == Created(id, initialRef)
    ensures Leads(t, CreateAuthz(req, false), req, Compensating(id, initialRef))
  {
  }

  lemma CompensationDrops(t: State, req: nat, id: Id, initialRef: Ref)
    requires req in t.requests && t.requests[req] == Compensating(id, initialRef) && initialRef in t.roles
    ensures SpentRef(Next(t, CreateUndo(req, true)), initialRef)
  {
  }

  /** The credential of a cluster whose authorization failed is gone for good once its compensating
      delete takes effect. */
  lemma FailedCreateIsUndone(run: seq<State>, steps: seq<Step>, i: nat, f: nat, u: nat, req: nat, id: Id,
                             initialRef: Ref, j: nat)
    requires Follows(run, steps) && i < |steps| && steps[i] == CreateTx(req, id, initialRef)
    requires req !in run[i].requests && id !in run[i].clusters && initialRef !in run[i].roles
    requires forall r :: r in run[i].creds ==> run[i].creds[r] != Cred(id, 1)
    requires GoesOn(run, steps, i, f, req, Created(id, initialRef)) && steps[f] == CreateAuthz(req, false)
    requires GoesOn(run, steps, f, u, req, Compensating(id, initialRef)) && steps[u] == CreateUndo(req, true)
    requires u < j < |run|
    ensures initialRef !in run[j].creds
  {
    CreateLeads(run[i], req, id, initialRef);
    assert StepAt(run, steps, i);
    WaitingHolds(run, steps, i, f, req, Created(id, initialRef));
    AuthzDecides(run[f], req, id, initialRef);
    assert StepAt(run, steps, f);
    WaitingHolds(run, steps, f, u, req, Compensating(id, initialRef));
    RolesStay(run, steps, i + 1, u, initialRef);
    CompensationDrops(run[u], req, id, initialRef);
    assert StepAt(run, steps, u);
    SpentStays(run, steps, u + 1, j, initialRef);
  }
}
