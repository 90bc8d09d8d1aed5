/** Creating clusters, rotating their credentials and cleaning up old ones:
    internal/biz/cluster_usecase.go with the row guards of internal/data/cluster_repo.go and the
    cleanup worker of internal/data/kubernetes_outbox_worker.go.

    Each database or store call is one step, any number of requests and workers take steps in
    any order, and a request may stop for good between two steps. */
module ClusterSaga {
  import opened Order

  type Id = nat
  type Ref = nat

  datatype Cluster = Cluster(credRef: Ref, credRevision: nat, revision: nat, deleted: bool)

  datatype Cred = Cred(cluster: Id, revision: nat)

  /** A failed event is left to an operator: no worker claims it again. */
  datatype EventState = Waiting | Done | Failed

  /** A credential_ref_cleanup event. */
  datatype Event = Event(oldRef: Ref, state: EventState)

  /** How far a request has come. */
  datatype Request =
    | Created(id: Id, initialRef: Ref)
    | Compensating(id: Id, initialRef: Ref)
    | Loaded(id: Id, expected: nat, oldRef: Ref, credRevision: nat)
    | Stored(id: Id, expected: nat, oldRef: Ref, credRevision: nat, newRef: Ref)
    | Probed(id: Id, expected: nat, oldRef: Ref, credRevision: nat, newRef: Ref)
    | Undoing(newRef: Ref)
    | Committed(oldRef: Ref)
    | Claimed(event: nat)
    | Deleted(event: nat)

  /** What became of each allocated ref. */
  datatype Role = Current(id: Id) | Pending(req: nat) | Retiring(req: nat) | Retired | Dropped | Orphaned

  /** A committed rotation: the cluster and the row revision it expected. */
  datatype Commit = Commit(id: Id, expected: nat)

  /** `roles`, `compensated` and `commits` record history. Steps use them only to
      allocate fresh refs. */
  datatype State = State(
    clusters: map<Id, Cluster>,
    creds: map<Ref, Cred>,
    events: seq<Event>,
    requests: map<nat, Request>,
    roles: map<Ref, Role>,
    compensated: set<Id>,
    commits: seq<Commit>)

  const EMPTY := State(map[], map[], [], map[], map[], {}, [])

  datatype Step =
    | CreateTx(req: nat, id: Id, initialRef: Ref)
    | CreateAuthz(req: nat, ok: bool)
    | CreateUndo(req: nat, ok: bool)
    | EditCluster(id: Id, expected: nat)
    | SoftDelete(id: Id)
    | RotateLoad(req: nat, id: Id, expected: nat)
    | RotatePut(req: nat, newRef: Ref, ok: bool)
    | RotateProbe(req: nat, ok: bool)
    | RotateCas(req: nat, ok: bool)
    | RotateUndo(req: nat, ok: bool)
    | RotateEnqueue(req: nat, ok: bool)
    | WorkerClaim(req: nat, event: nat)
    | WorkerDelete(req: nat, ok: bool, last: bool)
    | WorkerAck(req: nat)
    | Crash(req: nat)

  function Goto(s: State, req: nat, r: Request): State {
    s.(requests := s.requests[req := r])
  }

  function Finish(s: State, req: nat): State {
    s.(requests := s.requests - {req})
  }

  function DropCred(s: State, credRef: Ref): State {
    s.(creds := s.creds - {credRef})
  }

  predicate Live(s: State, id: Id) {
    id in s.clusters && !s.clusters[id].deleted
  }

  /** The table's unique constraint on (cluster_id, credential_revision). */
  predicate RevisionTaken(s: State, id: Id, revision: nat) {
    exists r :: r in s.creds && s.creds[r] == Cred(id, revision)
  }

  function CreateTxStep(s: State, req: nat, id: Id, initialRef: Ref): State {
    // The cluster row and its credential row, in one transaction.
    if req in s.requests || id in s.clusters || initialRef in s.roles || RevisionTaken(s, id, 1) then s
    else Goto(s.(clusters := s.clusters[id := Cluster(initialRef, 1, 1, false)],
                 creds := s.creds[initialRef := Cred(id, 1)],
                 roles := s.roles[initialRef := Current(id)]), req, Created(id, initialRef))
  }

  function CreateAuthzStep(s: State, req: nat, ok: bool): State {
    if req !in s.requests || !s.requests[req].Created? then s
    else if ok then Finish(s, req)
    else
      var r := s.requests[req];
      Goto(s.(compensated := s.compensated + {r.id}), req, Compensating(r.id, r.initialRef))
  }

  function CreateUndoStep(s: State, req: nat, ok: bool): State {
    if req !in s.requests || !s.requests[req].Compensating? then s
    else if ok then Finish(DropCred(s, s.requests[req].initialRef), req) else Finish(s, req)
  }

  function EditClusterStep(s: State, id: Id, expected: nat): State {
    if !Live(s, id) || s.clusters[id].revision != expected then s
    else s.(clusters := s.clusters[id := s.clusters[id].(revision := expected + 1)])
  }

  function SoftDeleteStep(s: State, id: Id): State {
    if !Live(s, id) then s else s.(clusters := s.clusters[id := s.clusters[id].(deleted := true)])
  }

  function RotateLoadStep(s: State, req: nat, id: Id, expected: nat): State {
    if req in s.requests || !Live(s, id) || s.clusters[id].revision != expected then s
    else Goto(s, req, Loaded(id, expected, s.clusters[id].credRef, s.clusters[id].credRevision))
  }

  function RotatePutStep(s: State, req: nat, newRef: Ref, ok: bool): State {
    if req !in s.requests || !s.requests[req].Loaded? || newRef in s.roles then s
    else
      var r := s.requests[req];
      if !ok || RevisionTaken(s, r.id, r.credRevision + 1) then Finish(s, req)
      else Goto(s.(creds := s.creds[newRef := Cred(r.id, r.credRevision + 1)],
                   roles := s.roles[newRef := Pending(req)]),
                req, Stored(r.id, r.expected, r.oldRef, r.credRevision, newRef))
  }

  function RotateProbeStep(s: State, req: nat, ok: bool): State {
    if req !in s.requests || !s.requests[req].Stored? then s
    else
      var r := s.requests[req];
      Goto(s, req, if ok then Probed(r.id, r.expected, r.oldRef, r.credRevision, r.newRef) else Undoing(r.newRef))
  }

  function RotateCasStep(s: State, req: nat, ok: bool): State {
    if req !in s.requests || !s.requests[req].Probed? then s
    else
      var r := s.requests[req];
      if ok && Live(s, r.id) && s.clusters[r.id].revision == r.expected then
        Goto(s.(clusters := s.clusters[r.id := Cluster(r.newRef, r.credRevision + 1, r.expected + 1, false)],
                roles := s.roles[r.newRef := Current(r.id)][r.oldRef := Retiring(req)],
                commits := s.commits + [Commit(r.id, r.expected)]), req, Committed(r.oldRef))
      else Goto(s, req, Undoing(r.newRef))
  }

  function RotateUndoStep(s: State, req: nat, ok: bool): State {
    // The error of the compensating delete is ignored.
    if req !in s.requests || !s.requests[req].Undoing? then s
    else
      var newRef := s.requests[req].newRef;
      if ok then Finish(DropCred(s, newRef), req).(roles := s.roles[newRef := Dropped])
      else Finish(s, req).(roles := s.roles[newRef := Orphaned])
  }

  function RotateEnqueueStep(s: State, req: nat, ok: bool): State {
    // The error of the enqueue is only logged.
    if req !in s.requests || !s.requests[req].Committed? then s
    else
      var oldRef := s.requests[req].oldRef;
      if ok then Finish(s, req).(events := s.events + [Event(oldRef, Waiting)], roles := s.roles[oldRef := Retired])
      else Finish(s, req).(roles := s.roles[oldRef := Orphaned])
  }

  function WorkerClaimStep(s: State, req: nat, event: nat): State {
    if req in s.requests || event >= |s.events| || s.events[event].state != Waiting then s
    else Goto(s, req, Claimed(event))
  }

  /** A failed delete is retried, or with the last retry fails the event. */
  function WorkerDeleteStep(s: State, req: nat, ok: bool, last: bool): State {
    if req !in s.requests || !s.requests[req].Claimed? || s.requests[req].event >= |s.events| then s
    else
      var event := s.requests[req].event;
      if ok then Goto(DropCred(s, s.events[event].oldRef), req, Deleted(event))
      else if last then Finish(s, req).(events := Settle(s.events, event, Failed))
      else Finish(s, req)
  }

  function WorkerAckStep(s: State, req: nat): State {
    if req !in s.requests || !s.requests[req].Deleted? || s.requests[req].event >= |s.events| then s
    else Finish(s, req).(events := Settle(s.events, s.requests[req].event, Done))
  }

  /** Only an event that is still waiting is settled. */
  function Settle(events: seq<Event>, event: nat, state: EventState): seq<Event>
    requires event < |events|
  {
    if events[event].state == Waiting then events[event := events[event].(state := state)] else events
  }

  /** The ref the request has to see to: the new one it stored, or the old one it replaced. */
  function OwnRef(r: Request): Option<Ref> {
    match r
    case Stored(_, _, _, _, newRef) => Some(newRef)
    case Probed(_, _, _, _, newRef) => Some(newRef)
    case Undoing(newRef) => Some(newRef)
    case Committed(oldRef) => Some(oldRef)
    case _ => None
  }

  /** A request that stops for good leaves its ref to nobody. */
  function CrashStep(s: State, req: nat): State {
    if req !in s.requests then s
    else
      var own := OwnRef(s.requests[req]);
      if own.None? then Finish(s, req) else Finish(s, req).(roles := s.roles[own.value := Orphaned])
  }

  function Next(s: State, a: Step): State {
    match a
    case CreateTx(req, id, initialRef) => CreateTxStep(s, req, id, initialRef)
    case CreateAuthz(req, ok) => CreateAuthzStep(s, req, ok)
    case CreateUndo(req, ok) => CreateUndoStep(s, req, ok)
    case EditCluster(id, expected) => EditClusterStep(s, id, expected)
    case SoftDelete(id) => SoftDeleteStep(s, id)
    case RotateLoad(req, id, expected) => RotateLoadStep(s, req, id, expected)
    case RotatePut(req, newRef, ok) => RotatePutStep(s, req, newRef, ok)
    case RotateProbe(req, ok) => RotateProbeStep(s, req, ok)
    case RotateCas(req, ok) => RotateCasStep(s, req, ok)
    case RotateUndo(req, ok) => RotateUndoStep(s, req, ok)
    case RotateEnqueue(req, ok) => RotateEnqueueStep(s, req, ok)
    case WorkerClaim(req, event) => WorkerClaimStep(s, req, event)
    case WorkerDelete(req, ok, last) => WorkerDeleteStep(s, req, ok, last)
    case WorkerAck(req) => WorkerAckStep(s, req)
    case Crash(req) => CrashStep(s, req)
  }

  function Run(s: State, steps: seq<Step>): State
    decreases |steps|
  {
    if steps == [] then s else Next(Run(s, steps[..|steps| - 1]), steps[|steps| - 1])
  }

  // ---- Who owns which ref ----

  ghost predicate HasRole(roles: map<Ref, Role>, credRef: Ref, role: Role) {
    credRef in roles && roles[credRef] == role
  }

  /** A rotation still agrees with the row it loaded, unless the row has moved on. */
  ghost predicate LoadedOk(s: State, id: Id, expected: nat, oldRef: Ref, credRevision: nat) {
    id in s.clusters && expected <= s.clusters[id].revision &&
    (s.clusters[id].revision == expected ==>
       s.clusters[id].credRef == oldRef && s.clusters[id].credRevision == credRevision)
  }

  /** The first ref of a cluster is still its own, or has been rotated out. */
  ghost predicate InitialRef(s: State, id: Id, credRef: Ref) {
    id in s.clusters && credRef in s.roles &&
    match s.roles[credRef]
    case Current(owner) => owner == id
    case Retiring(_) => true
    case Retired => true
    case Orphaned => true
    case _ => false
  }

  ghost predicate RequestOk(s: State, req: nat, r: Request) {
    match r
    case Created(id, initialRef) => InitialRef(s, id, initialRef)
    case Compensating(id, initialRef) => InitialRef(s, id, initialRef) && id in s.compensated
    case Loaded(id, expected, oldRef, credRevision) => LoadedOk(s, id, expected, oldRef, credRevision)
    case Stored(id, expected, oldRef, credRevision, newRef) =>
      LoadedOk(s, id, expected, oldRef, credRevision) && HasRole(s.roles, newRef, Pending(req)) &&
      newRef in s.creds && s.creds[newRef] == Cred(id, credRevision + 1)
    case Probed(id, expected, oldRef, credRevision, newRef) =>
      LoadedOk(s, id, expected, oldRef, credRevision) && HasRole(s.roles, newRef, Pending(req)) &&
      newRef in s.creds && s.creds[newRef] == Cred(id, credRevision + 1)
    case Undoing(newRef) => HasRole(s.roles, newRef, Pending(req))
    case Committed(oldRef) => HasRole(s.roles, oldRef, Retiring(req))
    case Claimed(event) => event < |s.events|
    case Deleted(event) => event < |s.events| && s.events[event].oldRef !in s.creds
  }

  ghost predicate RequestsOk(s: State) {
    forall req :: req in s.requests ==> RequestOk(s, req, s.requests[req])
  }

  /** Every cluster whose creation was not compensated has its credential. */
  ghost predicate ClustersOk(clusters: map<Id, Cluster>, roles: map<Ref, Role>, creds: map<Ref, Cred>,
                             compensated: set<Id>) {
    forall id :: id in clusters ==>
      HasRole(roles, clusters[id].credRef, Current(id)) &&
      (id !in compensated ==>
         clusters[id].credRef in creds && creds[clusters[id].credRef] == Cred(id, clusters[id].credRevision))
  }

  ghost predicate EventsOk(events: seq<Event>, roles: map<Ref, Role>, creds: map<Ref, Cred>) {
    (forall i :: 0 <= i < |events| ==>
       HasRole(roles, events[i].oldRef, Retired) && (events[i].state == Done ==> events[i].oldRef !in creds)) &&
    (forall i, j :: 0 <= i < j < |events| ==> events[i].oldRef != events[j].oldRef)
  }

  /** A cleanup event for the ref that is not done. */
  ghost predicate NamedByEvent(events: seq<Event>, credRef: Ref) {
    exists i :: 0 <= i < |events| && events[i].oldRef == credRef && events[i].state != Done
  }

  /** Why a stored credential is still there. */
  ghost predicate Accounted(s: State, credRef: Ref) {
    credRef in s.roles &&
    match s.roles[credRef]
    case Current(id) => id in s.clusters && s.clusters[id].credRef == credRef
    case Pending(req) => req in s.requests && OwnRef(s.requests[req]) == Some(credRef)
    case Retiring(req) => req in s.requests && OwnRef(s.requests[req]) == Some(credRef)
    case Retired => NamedByEvent(s.events, credRef)
    case Dropped => false
    case Orphaned => true
  }

  ghost predicate CredsOk(s: State) {
    forall r :: r in s.creds ==> Accounted(s, r)
  }

  function Count(commits: seq<Commit>, id: Id): nat {
    if commits == [] then 0
    else Count(commits[..|commits| - 1], id) + if commits[|commits| - 1].id == id then 1 else 0
  }

  ghost predicate CommitsOk(clusters: map<Id, Cluster>, commits: seq<Commit>) {
    (forall id :: id in clusters ==> clusters[id].credRevision == 1 + Count(commits, id)) &&
    (forall i :: 0 <= i < |commits| ==>
       commits[i].id in clusters && commits[i].expected < clusters[commits[i].id].revision) &&
    (forall i, j :: 0 <= i < j < |commits| && commits[i].id == commits[j].id ==>
       commits[i].expected < commits[j].expected)
  }

  /** The invariant of the rows, without the requests. */
  ghost predicate RowsOk(s: State) {
    ClustersOk(s.clusters, s.roles, s.creds, s.compensated) && EventsOk(s.events, s.roles, s.creds) &&
    CredsOk(s) && CommitsOk(s.clusters, s.commits)
  }

  ghost predicate Inv(s: State) {
    RequestsOk(s) && RowsOk(s)
  }

  lemma {:induction false} CountOnlyKnown(s: State, commits: seq<Commit>, id: Id)
    requires forall i :: 0 <= i < |commits| ==> commits[i].id in s.clusters
    requires id !in s.clusters
    ensures Count(commits, id) == 0
  {
    if commits != [] {
      CountOnlyKnown(s, commits[..|commits| - 1], id);
    }
  }

  lemma EventsGrow(events: seq<Event>, e: Event)
    ensures forall r :: NamedByEvent(events, r) ==> NamedByEvent(events + [e], r)
  {
    assert forall i :: 0 <= i < |events| ==> (events + [e])[i] == events[i];
  }

  /** Settling an event leaves every other ref named. */
  lemma SettleKeepsNames(events: seq<Event>, event: nat, state: EventState)
    requires event < |events|
    ensures forall r :: NamedByEvent(events, r) && (state == Failed || r != events[event].oldRef) ==>
              NamedByEvent(Settle(events, event, state), r)
  {
    var after := Settle(events, event, state);
    assert forall i :: 0 <= i < |events| ==>
        after[i].oldRef == events[i].oldRef && (i != event ==> after[i] == events[i]);
  }

  /** A ref that is neither current nor retired may change its role. */
  lemma RoleMove(s: State, credRef: Ref, role: Role)
    requires RowsOk(s) && (credRef in s.roles ==> !s.roles[credRef].Current? && s.roles[credRef] != Retired)
    ensures ClustersOk(s.clusters, s.roles[credRef := role], s.creds, s.compensated)
    ensures EventsOk(s.events, s.roles[credRef := role], s.creds)
  {
  }

  /** The credential of such a ref may come or go. */
  lemma CredMove(s: State, credRef: Ref, role: Role, cred: Cred)
    requires RowsOk(s) && (credRef in s.roles ==> !s.roles[credRef].Current? && s.roles[credRef] != Retired)
    ensures ClustersOk(s.clusters, s.roles[credRef := role], s.creds[credRef := cred], s.compensated)
    ensures EventsOk(s.events, s.roles[credRef := role], s.creds[credRef := cred])
    ensures ClustersOk(s.clusters, s.roles[credRef := role], s.creds - {credRef}, s.compensated)
    ensures EventsOk(s.events, s.roles[credRef := role], s.creds - {credRef})
  {
  }

  lemma EnqueueMove(s: State, credRef: Ref)
    requires RowsOk(s) && credRef in s.roles && s.roles[credRef].Retiring?
    ensures EventsOk(s.events + [Event(credRef, Waiting)], s.roles[credRef := Retired], s.creds)
  {
  }

  /** Deleting a retired ref or settling its event does not concern any request. */
  lemma CleanupFrame(s: State, event: nat, state: EventState, other: nat, r: Request)
    requires RequestOk(s, other, r) && event < |s.events| && HasRole(s.roles, s.events[event].oldRef, Retired)
    ensures RequestOk(DropCred(s, s.events[event].oldRef), other, r)
    ensures RequestOk(s.(events := Settle(s.events, event, state)), other, r)
  {
  }

  /** Which requests are under way does not concern a request's own invariant. */
  lemma RequestsFrame(s: State, requests: map<nat, Request>, other: nat, r: Request)
    requires RequestOk(s, other, r)
    ensures RequestOk(s.(requests := requests), other, r)
  {
  }

  /** Orphaning one request's ref does not concern another request. */
  lemma OrphanFrame(s: State, req: nat, credRef: Ref, other: nat, r: Request)
    requires RequestOk(s, other, r) && other != req
    requires HasRole(s.roles, credRef, Pending(req)) || HasRole(s.roles, credRef, Retiring(req))
    ensures RequestOk(Finish(s, req).(roles := s.roles[credRef := Orphaned]), other, r)
  {
  }

  lemma CreateTxKeepsRequests(s: State, req: nat, id: Id, initialRef: Ref)
    requires Inv(s)
    ensures RequestsOk(CreateTxStep(s, req, id, initialRef))
  {
    var t := CreateTxStep(s, req, id, initialRef);
    forall other | other in t.requests
      ensures RequestOk(t, other, t.requests[other])
    {
      assert other in s.requests ==> RequestOk(s, other, s.requests[other]);
    }
  }

  lemma CreateTxKeepsCreds(s: State, req: nat, id: Id, initialRef: Ref)
    requires Inv(s)
    ensures CredsOk(CreateTxStep(s, req, id, initialRef))
  {
  }

  lemma CreateTxKeepsRows(s: State, req: nat, id: Id, initialRef: Ref)
    requires Inv(s)
    ensures RowsOk(CreateTxStep(s, req, id, initialRef))
  {
    if id !in s.clusters && initialRef !in s.roles {
      CountOnlyKnown(s, s.commits, id);
      CredMove(s, initialRef, Current(id), Cred(id, 1));
    }
    CreateTxKeepsCreds(s, req, id, initialRef);
  }

  lemma CreateTxKeepsInv(s: State, req: nat, id: Id, initialRef: Ref)
    requires Inv(s)
    ensures Inv(CreateTxStep(s, req, id, initialRef))
  {
    CreateTxKeepsRequests(s, req, id, initialRef);
    CreateTxKeepsRows(s, req, id, initialRef);
  }

  lemma CreateAuthzKeepsRequests(s: State, req: nat, ok: bool)
    requires Inv(s)
    ensures RequestsOk(CreateAuthzStep(s, req, ok))
  {
    var t := CreateAuthzStep(s, req, ok);
    assert req in s.requests ==> RequestOk(s, req, s.requests[req]);
    forall other | other in t.requests
      ensures RequestOk(t, other, t.requests[other])
    {
      assert RequestOk(s, other, s.requests[other]);
    }
  }

  lemma CreateAuthzKeepsRows(s: State, req: nat, ok: bool)
    requires Inv(s)
    ensures RowsOk(CreateAuthzStep(s, req, ok))
  {
    assert req in s.requests ==> RequestOk(s, req, s.requests[req]);
  }

  lemma CreateAuthzKeepsInv(s: State, req: nat, ok: bool)
    requires Inv(s)
    ensures Inv(CreateAuthzStep(s, req, ok))
  {
    CreateAuthzKeepsRequests(s, req, ok);
    CreateAuthzKeepsRows(s, req, ok);
  }

  lemma CreateUndoKeepsRequests(s: State, req: nat, ok: bool)
    requires Inv(s)
    ensures RequestsOk(CreateUndoStep(s, req, ok))
  {
    var t := CreateUndoStep(s, req, ok);
    assert req in s.requests ==> RequestOk(s, req, s.requests[req]);
    forall other | other in t.requests
      ensures RequestOk(t, other, t.requests[other])
    {
      assert RequestOk(s, other, s.requests[other]);
    }
  }

  lemma CreateUndoKeepsRows(s: State, req: nat, ok: bool)
    requires Inv(s)
    ensures RowsOk(CreateUndoStep(s, req, ok))
  {
    assert req in s.requests ==> RequestOk(s, req, s.requests[req]);
  }

  /** Deleting the first credential of a compensated cluster touches no other cluster. */
  lemma CreateUndoKeepsInv(s: State, req: nat, ok: bool)
    requires Inv(s)
    ensures Inv(CreateUndoStep(s, req, ok))
  {
    CreateUndoKeepsRequests(s, req, ok);
    CreateUndoKeepsRows(s, req, ok);
  }

  lemma EditClusterKeepsRequests(s: State, id: Id, expected: nat)
    requires Inv(s)
    ensures RequestsOk(EditClusterStep(s, id, expected))
  {
    var t := EditClusterStep(s, id, expected);
    forall other | other in t.requests
      ensures RequestOk(t, other, t.requests[other])
    {
      assert RequestOk(s, other, s.requests[other]);
    }
  }

  lemma EditClusterKeepsRows(s: State, id: Id, expected: nat)
    requires Inv(s)
    ensures RowsOk(EditClusterStep(s, id, expected))
  {
  }

  lemma EditClusterKeepsInv(s: State, id: Id, expected: nat)
    requires Inv(s)
    ensures Inv(EditClusterStep(s, id, expected))
  {
    EditClusterKeepsRequests(s, id, expected);
    EditClusterKeepsRows(s, id, expected);
  }

  lemma SoftDeleteKeepsRequests(s: State, id: Id)
    requires Inv(s)
    ensures RequestsOk(SoftDeleteStep(s, id))
  {
    var t := SoftDeleteStep(s, id);
    forall other | other in t.requests
      ensures RequestOk(t, other, t.requests[other])
    {
      assert RequestOk(s, other, s.requests[other]);
    }
  }

  lemma SoftDeleteKeepsRows(s: State, id: Id)
    requires Inv(s)
    ensures RowsOk(SoftDeleteStep(s, id))
  {
  }

  lemma SoftDeleteKeepsInv(s: State, id: Id)
    requires Inv(s)
    ensures Inv(SoftDeleteStep(s, id))
  {
    SoftDeleteKeepsRequests(s, id);
    SoftDeleteKeepsRows(s, id);
  }

  lemma RotateLoadKeepsRequests(s: State, req: nat, id: Id, expected: nat)
    requires Inv(s)
    ensures RequestsOk(RotateLoadStep(s, req, id, expected))
  {
    var t := RotateLoadStep(s, req, id, expected);
    forall other | other in t.requests
      ensures RequestOk(t, other, t.requests[other])
    {
      assert other in s.requests ==> RequestOk(s, other, s.requests[other]);
    }
  }

  lemma RotateLoadKeepsRows(s: State, req: nat, id: Id, expected: nat)
    requires Inv(s)
    ensures RowsOk(RotateLoadStep(s, req, id, expected))
  {
  }

  lemma RotateLoadKeepsInv(s: State, req: nat, id: Id, expected: nat)
    requires Inv(s)
    ensures Inv(RotateLoadStep(s, req, id, expected))
  {
    RotateLoadKeepsRequests(s, req, id, expected);
    RotateLoadKeepsRows(s, req, id, expected);
  }

  lemma RotatePutKeepsRequests(s: State, req: nat, newRef: Ref, ok: bool)
    requires Inv(s)
    ensures RequestsOk(RotatePutStep(s, req, newRef, ok))
  {
    var t := RotatePutStep(s, req, newRef, ok);
    assert req in s.requests ==> RequestOk(s, req, s.requests[req]);
    forall other | other in t.requests
      ensures RequestOk(t, other, t.requests[other])
    {
      assert RequestOk(s, other, s.requests[other]);
    }
  }

  lemma RotatePutKeepsCreds(s: State, req: nat, newRef: Ref, ok: bool)
    requires Inv(s)
    ensures CredsOk(RotatePutStep(s, req, newRef, ok))
  {
    assert req in s.requests ==> RequestOk(s, req, s.requests[req]);
  }

  lemma RotatePutKeepsRows(s: State, req: nat, newRef: Ref, ok: bool)
    requires Inv(s)
    ensures RowsOk(RotatePutStep(s, req, newRef, ok))
  {
    if newRef !in s.roles && req in s.requests && s.requests[req].Loaded? {
      CredMove(s, newRef, Pending(req), Cred(s.requests[req].id, s.requests[req].credRevision + 1));
    }
    RotatePutKeepsCreds(s, req, newRef, ok);
  }

  lemma RotatePutKeepsInv(s: State, req: nat, newRef: Ref, ok: bool)
    requires Inv(s)
    ensures Inv(RotatePutStep(s, req, newRef, ok))
  {
    RotatePutKeepsRequests(s, req, newRef, ok);
    RotatePutKeepsRows(s, req, newRef, ok);
  }

  lemma RotateProbeKeepsRequests(s: State, req: nat, ok: bool)
    requires Inv(s)
    ensures RequestsOk(RotateProbeStep(s, req, ok))
  {
    var t := RotateProbeStep(s, req, ok);
    assert req in s.requests ==> RequestOk(s, req, s.requests[req]);
    forall other | other in t.requests
      ensures RequestOk(t, other, t.requests[other])
    {
      assert RequestOk(s, other, s.requests[other]);
    }
  }

  lemma RotateProbeKeepsRows(s: State, req: nat, ok: bool)
    requires Inv(s)
    ensures RowsOk(RotateProbeStep(s, req, ok))
  {
    assert req in s.requests ==> RequestOk(s, req, s.requests[req]);
  }

  lemma RotateProbeKeepsInv(s: State, req: nat, ok: bool)
    requires Inv(s)
    ensures Inv(RotateProbeStep(s, req, ok))
  {
    RotateProbeKeepsRequests(s, req, ok);
    RotateProbeKeepsRows(s, req, ok);
  }

  /** The compare-and-set swaps the roles of the old and the new ref, and nothing else. */
  lemma CommitKeepsClusters(s: State, req: nat)
    requires Inv(s) && req in s.requests && s.requests[req].Probed?
    requires Live(s, s.requests[req].id) && s.clusters[s.requests[req].id].revision == s.requests[req].expected
    ensures var t := RotateCasStep(s, req, true); ClustersOk(t.clusters, t.roles, t.creds, t.compensated)
  {
    assert RequestOk(s, req, s.requests[req]);
  }

  lemma CommitKeepsEvents(s: State, req: nat)
    requires Inv(s) && req in s.requests && s.requests[req].Probed?
    requires Live(s, s.requests[req].id) && s.clusters[s.requests[req].id].revision == s.requests[req].expected
    ensures var t := RotateCasStep(s, req, true); EventsOk(t.events, t.roles, t.creds)
  {
    assert RequestOk(s, req, s.requests[req]);
  }

  lemma CommitKeepsCreds(s: State, req: nat)
    requires Inv(s) && req in s.requests && s.requests[req].Probed?
    requires Live(s, s.requests[req].id) && s.clusters[s.requests[req].id].revision == s.requests[req].expected
    ensures CredsOk(RotateCasStep(s, req, true))
  {
    assert RequestOk(s, req, s.requests[req]);
  }

  lemma CommitKeepsCommits(s: State, req: nat)
    requires Inv(s) && req in s.requests && s.requests[req].Probed?
    requires Live(s, s.requests[req].id) && s.clusters[s.requests[req].id].revision == s.requests[req].expected
    ensures var t := RotateCasStep(s, req, true); CommitsOk(t.clusters, t.commits)
  {
    var t := RotateCasStep(s, req, true);
    assert RequestOk(s, req, s.requests[req]);
    assert t.commits[..|t.commits| - 1] == s.commits;
  }

  lemma CommitKeepsRequests(s: State, req: nat)
    requires Inv(s) && req in s.requests && s.requests[req].Probed?
    requires Live(s, s.requests[req].id) && s.clusters[s.requests[req].id].revision == s.requests[req].expected
    ensures RequestsOk(RotateCasStep(s, req, true))
  {
    var t := RotateCasStep(s, req, true);
    assert RequestOk(s, req, s.requests[req]);
    forall other | other in t.requests && other != req
      ensures RequestOk(t, other, t.requests[other])
    {
      assert RequestOk(s, other, s.requests[other]);
    }
  }

  lemma LostCasKeepsInv(s: State, req: nat)
    requires Inv(s) && req in s.requests && s.requests[req].Probed?
    ensures Inv(Goto(s, req, Undoing(s.requests[req].newRef)))
  {
    assert RequestOk(s, req, s.requests[req]);
  }

  lemma RotateCasKeepsInv(s: State, req: nat, ok: bool)
    requires Inv(s)
    ensures Inv(RotateCasStep(s, req, ok))
  {
    if req in s.requests && s.requests[req].Probed? {
      var r := s.requests[req];
      if ok && Live(s, r.id) && s.clusters[r.id].revision == r.expected {
        CommitKeepsClusters(s, req);
        CommitKeepsEvents(s, req);
        CommitKeepsCreds(s, req);
        CommitKeepsCommits(s, req);
        CommitKeepsRequests(s, req);
      } else {
        LostCasKeepsInv(s, req);
      }
    }
  }

  lemma RotateUndoKeepsRequests(s: State, req: nat, ok: bool)
    requires Inv(s)
    ensures RequestsOk(RotateUndoStep(s, req, ok))
  {
    var t := RotateUndoStep(s, req, ok);
    assert req in s.requests ==> RequestOk(s, req, s.requests[req]);
    forall other | other in t.requests
      ensures RequestOk(t, other, t.requests[other])
    {
      assert RequestOk(s, other, s.requests[other]);
    }
  }

  lemma RotateUndoKeepsCreds(s: State, req: nat, ok: bool)
    requires Inv(s)
    ensures CredsOk(RotateUndoStep(s, req, ok))
  {
    assert req in s.requests ==> RequestOk(s, req, s.requests[req]);
  }

  lemma RotateUndoKeepsRows(s: State, req: nat, ok: bool)
    requires Inv(s)
    ensures RowsOk(RotateUndoStep(s, req, ok))
  {
    assert req in s.requests ==> RequestOk(s, req, s.requests[req]);
    if req in s.requests && s.requests[req].Undoing? {
      RoleMove(s, s.requests[req].newRef, Orphaned);
      CredMove(s, s.requests[req].newRef, Dropped, Cred(0, 0));
    }
    RotateUndoKeepsCreds(s, req, ok);
  }

  lemma RotateUndoKeepsInv(s: State, req: nat, ok: bool)
    requires Inv(s)
    ensures Inv(RotateUndoStep(s, req, ok))
  {
    RotateUndoKeepsRequests(s, req, ok);
    RotateUndoKeepsRows(s, req, ok);
  }

  lemma RotateEnqueueKeepsRequests(s: State, req: nat, ok: bool)
    requires Inv(s)
    ensures RequestsOk(RotateEnqueueStep(s, req, ok))
  {
    var t := RotateEnqueueStep(s, req, ok);
    assert req in s.requests ==> RequestOk(s, req, s.requests[req]);
    forall other | other in t.requests
      ensures RequestOk(t, other, t.requests[other])
    {
      assert RequestOk(s, other, s.requests[other]);
    }
  }

  lemma RotateEnqueueKeepsCreds(s: State, req: nat, ok: bool)
    requires Inv(s)
    ensures CredsOk(RotateEnqueueStep(s, req, ok))
  {
    assert req in s.requests ==> RequestOk(s, req, s.requests[req]);
    var t := RotateEnqueueStep(s, req, ok);
    if t.events != s.events {
      assert t.events[|s.events|] == Event(s.requests[req].oldRef, Waiting);
      EventsGrow(s.events, Event(s.requests[req].oldRef, Waiting));
    }
  }

  lemma RotateEnqueueKeepsRows(s: State, req: nat, ok: bool)
    requires Inv(s)
    ensures RowsOk(RotateEnqueueStep(s, req, ok))
  {
    assert req in s.requests ==> RequestOk(s, req, s.requests[req]);
    if req in s.requests && s.requests[req].Committed? {
      RoleMove(s, s.requests[req].oldRef, if ok then Retired else Orphaned);
      EnqueueMove(s, s.requests[req].oldRef);
    }
    RotateEnqueueKeepsCreds(s, req, ok);
  }

  lemma RotateEnqueueKeepsInv(s: State, req: nat, ok: bool)
    requires Inv(s)
    ensures Inv(RotateEnqueueStep(s, req, ok))
  {
    RotateEnqueueKeepsRequests(s, req, ok);
    RotateEnqueueKeepsRows(s, req, ok);
  }

  lemma WorkerClaimKeepsRequests(s: State, req: nat, event: nat)
    requires Inv(s)
    ensures RequestsOk(WorkerClaimStep(s, req, event))
  {
    var t := WorkerClaimStep(s, req, event);
    forall other | other in t.requests
      ensures RequestOk(t, other, t.requests[other])
    {
      assert other in s.requests ==> RequestOk(s, other, s.requests[other]);
    }
  }

  lemma WorkerClaimKeepsRows(s: State, req: nat, event: nat)
    requires Inv(s)
    ensures RowsOk(WorkerClaimStep(s, req, event))
  {
  }

  lemma WorkerClaimKeepsInv(s: State, req: nat, event: nat)
    requires Inv(s)
    ensures Inv(WorkerClaimStep(s, req, event))
  {
    WorkerClaimKeepsRequests(s, req, event);
    WorkerClaimKeepsRows(s, req, event);
  }

  lemma WorkerDeleteKeepsRequests(s: State, req: nat, ok: bool, last: bool)
    requires Inv(s)
    ensures RequestsOk(WorkerDeleteStep(s, req, ok, last))
  {
    var t := WorkerDeleteStep(s, req, ok, last);
    forall other | other in t.requests
      ensures RequestOk(t, other, t.requests[other])
    {
      assert RequestOk(s, other, s.requests[other]);
      if req in s.requests && s.requests[req].Claimed? && other != req {
        var event := s.requests[req].event;
        assert RequestOk(s, req, s.requests[req]);
        CleanupFrame(s, event, Failed, other, s.requests[other]);
        RequestsFrame(DropCred(s, s.events[event].oldRef), t.requests, other, s.requests[other]);
        RequestsFrame(s.(events := Settle(s.events, event, Failed)), t.requests, other, s.requests[other]);
        RequestsFrame(s, t.requests, other, s.requests[other]);
      }
    }
  }

  lemma WorkerDeleteKeepsRows(s: State, req: nat, ok: bool, last: bool)
    requires Inv(s)
    ensures RowsOk(WorkerDeleteStep(s, req, ok, last))
  {
    assert req in s.requests ==> RequestOk(s, req, s.requests[req]);
    if req in s.requests && s.requests[req].Claimed? {
      SettleKeepsNames(s.events, s.requests[req].event, Failed);
    }
  }

  lemma WorkerDeleteKeepsInv(s: State, req: nat, ok: bool, last: bool)
    requires Inv(s)
    ensures Inv(WorkerDeleteStep(s, req, ok, last))
  {
    WorkerDeleteKeepsRequests(s, req, ok, last);
    WorkerDeleteKeepsRows(s, req, ok, last);
  }

  lemma WorkerAckKeepsRequests(s: State, req: nat)
    requires Inv(s)
    ensures RequestsOk(WorkerAckStep(s, req))
  {
    var t := WorkerAckStep(s, req);
    assert req in s.requests ==> RequestOk(s, req, s.requests[req]);
    forall other | other in t.requests
      ensures RequestOk(t, other, t.requests[other])
    {
      assert RequestOk(s, other, s.requests[other]);
    }
  }

  lemma WorkerAckKeepsRows(s: State, req: nat)
    requires Inv(s)
    ensures RowsOk(WorkerAckStep(s, req))
  {
    assert req in s.requests ==> RequestOk(s, req, s.requests[req]);
    var t := WorkerAckStep(s, req);
    if req in s.requests && s.requests[req].Deleted? {
      SettleKeepsNames(s.events, s.requests[req].event, Done);
    }
  }

  lemma WorkerAckKeepsInv(s: State, req: nat)
    requires Inv(s)
    ensures Inv(WorkerAckStep(s, req))
  {
    WorkerAckKeepsRequests(s, req);
    WorkerAckKeepsRows(s, req);
  }

  lemma CrashKeepsRequests(s: State, req: nat)
    requires Inv(s)
    ensures RequestsOk(CrashStep(s, req))
  {
    var t := CrashStep(s, req);
    assert req in s.requests ==> RequestOk(s, req, s.requests[req]);
    forall other | other in t.requests
      ensures RequestOk(t, other, t.requests[other])
    {
      assert RequestOk(s, other, s.requests[other]);
      if req in s.requests && OwnRef(s.requests[req]).Some? {
        OrphanFrame(s, req, OwnRef(s.requests[req]).value, other, s.requests[other]);
      }
    }
  }

  lemma CrashKeepsCreds(s: State, req: nat)
    requires Inv(s)
    ensures CredsOk(CrashStep(s, req))
  {
    assert req in s.requests ==> RequestOk(s, req, s.requests[req]);
  }

  lemma CrashKeepsRows(s: State, req: nat)
    requires Inv(s)
    ensures RowsOk(CrashStep(s, req))
  {
    assert req in s.requests ==> RequestOk(s, req, s.requests[req]);
    if req in s.requests && OwnRef(s.requests[req]).Some? {
      RoleMove(s, OwnRef(s.requests[req]).value, Orphaned);
    }
    CrashKeepsCreds(s, req);
  }

  /** A stopped request orphans at most the one ref it was responsible for. */
  lemma CrashKeepsInv(s: State, req: nat)
    requires Inv(s)
    ensures Inv(CrashStep(s, req))
  {
    CrashKeepsRequests(s, req);
    CrashKeepsRows(s, req);
  }

  lemma StepKeepsInv(s: State, a: Step)
    requires Inv(s)
    ensures Inv(Next(s, a))
  {
    match a
    case CreateTx(req, id, initialRef) => CreateTxKeepsInv(s, req, id, initialRef);
    case CreateAuthz(req, ok) => CreateAuthzKeepsInv(s, req, ok);
    case CreateUndo(req, ok) => CreateUndoKeepsInv(s, req, ok);
    case EditCluster(id, expected) => EditClusterKeepsInv(s, id, expected);
    case SoftDelete(id) => SoftDeleteKeepsInv(s, id);
    case RotateLoad(req, id, expected) => RotateLoadKeepsInv(s, req, id, expected);
    case RotatePut(req, newRef, ok) => RotatePutKeepsInv(s, req, newRef, ok);
    case RotateProbe(req, ok) => RotateProbeKeepsInv(s, req, ok);
    case RotateCas(req, ok) => RotateCasKeepsInv(s, req, ok);
    case RotateUndo(req, ok) => RotateUndoKeepsInv(s, req, ok);
    case RotateEnqueue(req, ok) => RotateEnqueueKeepsInv(s, req, ok);
    case WorkerClaim(req, event) => WorkerClaimKeepsInv(s, req, event);
    case WorkerDelete(req, ok, last) => WorkerDeleteKeepsInv(s, req, ok, last);
    case WorkerAck(req) => WorkerAckKeepsInv(s, req);
    case Crash(req) => CrashKeepsInv(s, req);
  }

  lemma {:induction false} RunKeepsInv(steps: seq<Step>)
    ensures Inv(Run(EMPTY, steps))
    decreases |steps|
  {
    if steps != [] {
      RunKeepsInv(steps[..|steps| - 1]);
      StepKeepsInv(Run(EMPTY, steps[..|steps| - 1]), steps[|steps| - 1]);
    }
  }

  // ---- What every run keeps ----

  /** In every interleaving and at every crash point, every cluster whose creation was not
      compensated names an existing credential row with its own id and revision. */
  lemma CredentialAlwaysThere(steps: seq<Step>, id: Id)
    requires var s := Run(EMPTY, steps); id in s.clusters && id !in s.compensated
    ensures var s := Run(EMPTY, steps);
            s.clusters[id].credRef in s.creds &&
            s.creds[s.clusters[id].credRef] == Cred(id, s.clusters[id].credRevision)
  {
    RunKeepsInv(steps);
  }

  /** The cleanup worker never deletes a ref in use: not a cluster's current one, not one an
      unfinished rotation has stored. */
  lemma CleanupSparesRefsInUse(steps: seq<Step>, event: nat)
    requires event < |Run(EMPTY, steps).events|
    ensures var s := Run(EMPTY, steps);
            var victim := s.events[event].oldRef;
            (forall id :: id in s.clusters ==> s.clusters[id].credRef != victim) &&
            (forall req :: req in s.requests ==> OwnRef(s.requests[req]) != Some(victim))
  {
    RunKeepsInv(steps);
    var s := Run(EMPTY, steps);
    forall req | req in s.requests
      ensures OwnRef(s.requests[req]) != Some(s.events[event].oldRef)
    {
      assert RequestOk(s, req, s.requests[req]);
    }
  }

  /** At most one rotation commits per expected row revision, and the credential revision is one
      more than the number of committed rotations. */
  lemma OneCommitPerRevision(steps: seq<Step>)
    ensures var s := Run(EMPTY, steps);
            (forall i, j :: 0 <= i < |s.commits| && 0 <= j < |s.commits| && s.commits[i] == s.commits[j] ==> i == j) &&
            (forall id :: id in s.clusters ==> s.clusters[id].credRevision == 1 + Count(s.commits, id))
  {
    RunKeepsInv(steps);
  }
}
