/** Convergence of sandbox and claim rows with what the cluster reports: the sync cores of
    internal/biz/sandbox_usecase.go in the order internal/biz/sandbox_reconciler.go runs them.

    The live rows of one namespace are a map by name, as the table's unique index on live rows
    allows. Each database call may fail: `fails` holds the names whose calls fail. */
module SandboxSync {
  import opened Order

  type Name = nat

  datatype Lifecycle = Creating | Ready | Suspended | Terminating | Failed | Deleted

  datatype ClaimStatus = ClaimPending | ClaimReady | ClaimFailed | ClaimDeleted

  datatype Sandbox = Sandbox(
    id: nat, owner: string, claim: Option<nat>, warmPool: string,
    lifecycle: Lifecycle, podIp: string, version: string, revision: nat)

  datatype Claim = Claim(
    id: nat, owner: string, warmPool: string, status: ClaimStatus,
    sandboxName: Option<Name>, sandbox: Option<nat>, revision: nat)

  datatype RemoteSandbox = RemoteSandbox(name: Name, podIp: string, version: string)

  datatype RemoteClaim = RemoteClaim(name: Name, ready: bool, sandboxName: Option<Name>, podIp: string, version: string)

  // ---- Sandboxes ----

  function Names(remote: seq<RemoteSandbox>): set<Name> {
    set r | r in remote :: r.name
  }

  /** The cluster reports a sandbox of that name. */
  ghost predicate Reported(remote: seq<RemoteSandbox>, name: Name) {
    exists i :: 0 <= i < |remote| && remote[i].name == name
  }

  /** Objects of one kind in one Kubernetes namespace have distinct names. */
  ghost predicate DistinctNames(remote: seq<RemoteSandbox>) {
    forall i, j :: 0 <= i < j < |remote| ==> remote[i].name != remote[j].name
  }

  function Observe(row: Sandbox, r: RemoteSandbox): Sandbox {
    row.(podIp := r.podIp, version := r.version, revision := row.revision + 1)
  }

  /** A row that a pass creates for a sandbox nobody claimed. */
  function Import(r: RemoteSandbox, owner: string, id: nat): Sandbox {
    Sandbox(id, owner, None, "", Ready, r.podIp, r.version, 1)
  }

  /** Rows a pass never removes. */
  predicate Protected(row: Sandbox) {
    row.lifecycle == Creating || row.lifecycle == Deleted
  }

  /** The rows a pass has to remove. */
  function Stale(before: map<Name, Sandbox>, names: set<Name>): set<Name> {
    set name | name in before && name !in names && !Protected(before[name])
  }

  /** The rows a pass removes: not reported, neither being created nor deleted already, and no failure. */
  ghost function Gone(before: map<Name, Sandbox>, remote: seq<RemoteSandbox>, fails: set<Name>): set<Name> {
    set name | name in before && !Reported(remote, name) && name !in fails &&
               before[name].lifecycle != Creating && before[name].lifecycle != Deleted
  }

  lemma GoneExactly(before: map<Name, Sandbox>, remote: seq<RemoteSandbox>, fails: set<Name>)
    ensures Gone(before, remote, fails) == Stale(before, Names(remote)) - fails
  {
    forall name
      ensures name in Names(remote) <==> Reported(remote, name)
    {
      ReportedExactly(remote, name);
    }
  }

  /** `mid` is `before` with the reported sandboxes updated or imported. */
  ghost predicate Merged(before: map<Name, Sandbox>, mid: map<Name, Sandbox>, remote: seq<RemoteSandbox>,
                         owner: string, fails: set<Name>) {
    mid.Keys == before.Keys + (Names(remote) - fails) &&
    (forall r :: r in remote && r.name !in fails ==>
       if r.name in before then mid[r.name] == Observe(before[r.name], r)
       else mid[r.name] == Import(r, owner, mid[r.name].id)) &&
    (forall name :: name in before && (name !in Names(remote) || name in fails) ==> mid[name] == before[name])
  }

  lemma NamesSnoc(remote: seq<RemoteSandbox>, r: RemoteSandbox)
    ensures Names(remote + [r]) == Names(remote) + {r.name}
  {
  }

  lemma NextNameIsNew(remote: seq<RemoteSandbox>, i: nat)
    requires DistinctNames(remote) && i < |remote|
    ensures remote[i].name !in Names(remote[..i]) && remote[..i + 1] == remote[..i] + [remote[i]]
  {
  }

  lemma MergedSnoc(before: map<Name, Sandbox>, mid: map<Name, Sandbox>, remote: seq<RemoteSandbox>,
                   owner: string, fails: set<Name>, r: RemoteSandbox, id: nat)
    requires Merged(before, mid, remote, owner, fails) && r.name !in Names(remote)
    ensures var row := if r.name in before then Observe(before[r.name], r) else Import(r, owner, id);
            Merged(before, if r.name in fails then mid else mid[r.name := row], remote + [r], owner, fails)
  {
    NamesSnoc(remote, r);
    forall q | q in remote
      ensures q.name in Names(remote)
    {
    }
  }

  /** What one pass makes of the live rows. */
  ghost predicate SyncedTo(before: map<Name, Sandbox>, after: map<Name, Sandbox>, remote: seq<RemoteSandbox>,
                           owner: string, fails: set<Name>) {
    exists mid :: Merged(before, mid, remote, owner, fails) && after == mid - (Stale(before, Names(remote)) - fails)
  }

  /** The reported sandboxes that have no row, and those that have one. */
  function Unknown(names: set<Name>, before: map<Name, Sandbox>, fails: set<Name>): set<Name> {
    set name | name in names && name !in before && name !in fails
  }

  function Known(names: set<Name>, before: map<Name, Sandbox>, fails: set<Name>): set<Name> {
    set name | name in names && name in before && name !in fails
  }

  lemma UnknownSnoc(before: map<Name, Sandbox>, names: set<Name>, name: Name, fails: set<Name>)
    requires name !in names
    ensures |Unknown(names + {name}, before, fails)| ==
            |Unknown(names, before, fails)| + if name !in before && name !in fails then 1 else 0
  {
    assert Unknown(names + {name}, before, fails) ==
           Unknown(names, before, fails) + if name !in before && name !in fails then {name} else {};
  }

  lemma KnownSnoc(before: map<Name, Sandbox>, names: set<Name>, name: Name, fails: set<Name>)
    requires name !in names
    ensures |Known(names + {name}, before, fails)| ==
            |Known(names, before, fails)| + if name in before && name !in fails then 1 else 0
  {
    assert Known(names + {name}, before, fails) ==
           Known(names, before, fails) + if name in before && name !in fails then {name} else {};
  }

  // ---- Claims ----

  function StatusOf(existing: Claim, r: RemoteClaim): ClaimStatus {
    if r.ready then (if r.sandboxName.Some? then ClaimReady else ClaimPending)
    else if existing.status == ClaimFailed then ClaimFailed else ClaimPending
  }

  /** The row created for a sandbox that a claim delivered. */
  function Delivered(claim: Claim, r: RemoteClaim, id: nat): Sandbox {
    Sandbox(id, claim.owner, Some(claim.id), claim.warmPool, Ready, r.podIp, r.version, 1)
  }

  function Linked(row: Sandbox, claim: Claim, r: RemoteClaim): Sandbox {
    row.(claim := Some(claim.id), warmPool := claim.warmPool,
         podIp := if r.podIp != "" then r.podIp else row.podIp, version := r.version)
  }

  /** The claim loop's state: the live rows, the rows as the loop remembers them, the claims, the
      next fresh id and the two counters. */
  datatype ClaimPass = ClaimPass(
    live: map<Name, Sandbox>, memory: map<Name, Sandbox>, claims: map<Name, Claim>,
    nextId: nat, linked: nat, updated: nat)

  /** Whether a call of the claim loop fails: linking or creating the row, stamping the claim. */
  datatype ClaimFaults = ClaimFaults(link: set<Name>, stamp: set<Name>)

  /** The memory marks a row as linked even when the database refused the link. */
  function LinkRow(p: ClaimPass, claim: Claim, r: RemoteClaim, ok: bool): ClaimPass {
    if r.sandboxName.None? then p
    else
      var name := r.sandboxName.value;
      if name in p.memory then
        if p.memory[name].claim.Some? then p
        else
          var q := p.(memory := p.memory[name := Linked(p.memory[name], claim, r)]);
          if !ok || name !in p.live then q
          else q.(live := p.live[name := Linked(p.live[name], claim, r).(revision := p.live[name].revision + 1)],
                  linked := p.linked + 1)
      else if !ok || name in p.live then p
      else
        var row := Delivered(claim, r, p.nextId);
        p.(live := p.live[name := row], memory := p.memory[name := row], nextId := p.nextId + 1, linked := p.linked + 1)
  }

  function StampClaim(p: ClaimPass, existing: Claim, r: RemoteClaim, ok: bool): ClaimPass {
    if !ok || r.name !in p.claims then p
    else
      var row := p.claims[r.name];
      var sandbox := if r.sandboxName.Some? && r.sandboxName.value in p.memory
                     then Some(p.memory[r.sandboxName.value].id) else row.sandbox;
      p.(claims := p.claims[r.name := row.(status := StatusOf(existing, r), sandboxName := r.sandboxName,
                                           sandbox := sandbox, revision := row.revision + 1)],
         updated := p.updated + 1)
  }

  /** One reported claim. `known` are the Hub's claims when the pass began. */
  function ClaimStep(known: map<Name, Claim>, p: ClaimPass, r: RemoteClaim, faults: ClaimFaults): ClaimPass {
    if r.name !in known then p
    else StampClaim(LinkRow(p, known[r.name], r, r.name !in faults.link), known[r.name], r, r.name !in faults.stamp)
  }

  function ClaimFold(known: map<Name, Claim>, p: ClaimPass, remote: seq<RemoteClaim>, faults: ClaimFaults): ClaimPass
    decreases |remote|
  {
    if remote == [] then p
    else ClaimStep(known, ClaimFold(known, p, remote[..|remote| - 1], faults), remote[|remote| - 1], faults)
  }

  function ClaimNames(remote: seq<RemoteClaim>): set<Name> {
    set r | r in remote :: r.name
  }

  lemma ClaimReportedExactly(remote: seq<RemoteClaim>, name: Name)
    ensures name in ClaimNames(remote) <==> exists i :: 0 <= i < |remote| && remote[i].name == name
  {
    if i :| 0 <= i < |remote| && remote[i].name == name {
      assert remote[i] in remote;
    }
  }

  /** The Hub's claims a pass has to remove: pending ones may simply not be listed yet. */
  function StaleClaims(known: map<Name, Claim>, names: set<Name>): set<Name> {
    set name | name in known && name !in names &&
               known[name].status != ClaimPending && known[name].status != ClaimDeleted
  }

  // ---- The tables ----

  class Tables {
    var sandboxes: map<Name, Sandbox>
    var claims: map<Name, Claim>
    var nextId: nat

    constructor ()
      ensures sandboxes == map[] && claims == map[] && nextId == 0
    {
      sandboxes, claims, nextId := map[], map[], 0;
    }

    /** Refused when a live row has the name. */
    method CreateSandbox(name: Name, row: Sandbox, ok: bool) returns (created: bool)
      modifies this`sandboxes, this`nextId
      ensures created <==> ok && name !in old(sandboxes)
      ensures sandboxes == if created then old(sandboxes)[name := row.(id := old(nextId))] else old(sandboxes)
      ensures nextId == old(nextId) + if created then 1 else 0
    {
      created := ok && name !in sandboxes;
      if created {
        sandboxes, nextId := sandboxes[name := row.(id := nextId)], nextId + 1;
      }
    }

    /** The soft delete, guarded by the revision. */
    method DeleteSandbox(name: Name, expected: nat, ok: bool) returns (removed: bool)
      modifies this`sandboxes
      ensures removed <==> ok && name in old(sandboxes) && old(sandboxes)[name].revision == expected
      ensures sandboxes == if removed then old(sandboxes) - {name} else old(sandboxes)
    {
      removed := ok && name in sandboxes && sandboxes[name].revision == expected;
      if removed {
        sandboxes := sandboxes - {name};
      }
    }

    /** The next reported sandbox of a pass that began at `local` and has seen `before`. */
    method MergeOne(local: map<Name, Sandbox>, before: seq<RemoteSandbox>, r: RemoteSandbox, owner: string,
                    fails: set<Name>)
      returns (added: nat, seen: nat)
      requires Merged(local, sandboxes, before, owner, fails) && r.name !in Names(before)
      modifies this`sandboxes, this`nextId
      ensures Merged(local, sandboxes, before + [r], owner, fails)
      ensures added == |Unknown(Names(before + [r]), local, fails)| - |Unknown(Names(before), local, fails)|
      ensures seen == |Known(Names(before + [r]), local, fails)| - |Known(Names(before), local, fails)|
    {
      MergedSnoc(local, sandboxes, before, owner, fails, r, nextId);
      NamesSnoc(before, r);
      UnknownSnoc(local, Names(before), r.name, fails);
      KnownSnoc(local, Names(before), r.name, fails);
      added, seen := 0, 0;
      if r.name in local {
        if r.name !in fails {
          sandboxes := sandboxes[r.name := Observe(local[r.name], r)];
          seen := 1;
        }
      } else {
        var created := CreateSandbox(r.name, Import(r, owner, 0), r.name !in fails);
        if created {
          added := 1;
        }
      }
    }

    /** The first loop of the sandbox core: update or import every reported sandbox. */
    method MergeRemote(remote: seq<RemoteSandbox>, owner: string, fails: set<Name>)
      returns (imported: nat, updated: nat)
      requires DistinctNames(remote)
      modifies this`sandboxes, this`nextId
      ensures Merged(old(sandboxes), sandboxes, remote, owner, fails)
      ensures imported == |Unknown(Names(remote), old(sandboxes), fails)|
      ensures updated == |Known(Names(remote), old(sandboxes), fails)|
    {
      var local := sandboxes;
      imported, updated := 0, 0;
      var i := 0;
      while i < |remote|
        invariant 0 <= i <= |remote|
        invariant Merged(local, sandboxes, remote[..i], owner, fails)
        invariant imported == |Unknown(Names(remote[..i]), local, fails)|
        invariant updated == |Known(Names(remote[..i]), local, fails)|
      {
        NextNameIsNew(remote, i);
        var added, seen := MergeOne(local, remote[..i], remote[i], owner, fails);
        imported, updated := imported + added, updated + seen;
        i := i + 1;
      }
      assert remote[..i] == remote;
    }

    /** The second loop: remove the rows no longer reported, in no particular order. */
    method RemoveStale(local: map<Name, Sandbox>, names: set<Name>, fails: set<Name>) returns (removed: nat)
      requires forall name :: name in local && name !in names ==> name in sandboxes && sandboxes[name] == local[name]
      modifies this`sandboxes
      ensures sandboxes == old(sandboxes) - (Stale(local, names) - fails)
      ensures removed == |Stale(local, names) - fails|
    {
      var todo := local.Keys;
      ghost var doomed := Stale(local, names) - fails;
      removed := 0;
      while todo != {}
        invariant todo <= local.Keys
        invariant sandboxes == old(sandboxes) - (doomed - todo) && removed == |doomed - todo|
        decreases todo
      {
        var name :| name in todo;
        RemovalStep(old(sandboxes), doomed, todo, name);
        if name !in names && !Protected(local[name]) {
          var ok := DeleteSandbox(name, local[name].revision, name !in fails);
          if ok {
            removed := removed + 1;
          }
        }
        todo := todo - {name};
      }
      assert doomed - todo == doomed;
    }

    method SyncSandboxes(remote: seq<RemoteSandbox>, owner: string, fails: set<Name>)
      returns (imported: nat, updated: nat, removed: nat)
      requires DistinctNames(remote)
      modifies this`sandboxes, this`nextId
      ensures SyncedTo(old(sandboxes), sandboxes, remote, owner, fails)
      ensures imported == |Unknown(Names(remote), old(sandboxes), fails)|
      ensures updated == |Known(Names(remote), old(sandboxes), fails)|
      ensures removed == |Gone(old(sandboxes), remote, fails)|
      ensures forall name :: name in sandboxes <==>
                if name in old(sandboxes) then name !in Gone(old(sandboxes), remote, fails)
                else Reported(remote, name) && name !in fails
    {
      var local := sandboxes;
      imported, updated := MergeRemote(remote, owner, fails);
      removed := RemoveStale(local, Names(remote), fails);
      GoneExactly(local, remote, fails);
      NamesAfterPass(local, sandboxes, remote, owner, fails);
    }

    /** The claim core. Every row after it is the one its winning claim left. */
    method SyncClaims(remote: seq<RemoteClaim>, faults: ClaimFaults) returns (updated: nat, removed: nat, linked: nat)
      modifies this
      ensures var start := ClaimPass(old(sandboxes), old(sandboxes), old(claims), old(nextId), 0, 0);
              var p := ClaimFold(old(claims), start, remote, faults);
              sandboxes == p.live && updated == p.updated && linked == p.linked &&
              claims == p.claims - (StaleClaims(old(claims), ClaimNames(remote)) - faults.stamp)
      ensures removed == |StaleClaims(old(claims), ClaimNames(remote)) - faults.stamp|
      ensures forall name :: name in claims <==>
                name in old(claims) &&
                ((exists i :: 0 <= i < |remote| && remote[i].name == name) || name in faults.stamp ||
                 old(claims)[name].status == ClaimPending || old(claims)[name].status == ClaimDeleted)
      ensures updated == StampedReports(old(claims), remote, faults.stamp)
      ensures linked == |Won(old(claims), old(sandboxes), remote, faults.link)|
      ensures forall name :: RowAfterClaims(old(sandboxes), sandboxes, name,
                                            Winner(old(claims), old(sandboxes), remote, faults.link, name))
      ensures DistinctClaims(remote) ==> forall i :: 0 <= i < |remote| && remote[i].name in old(claims) ==>
                remote[i].name in claims &&
                Stamped(old(claims)[remote[i].name], claims[remote[i].name], remote[i], remote[i].name !in faults.stamp)
      ensures DistinctClaims(remote) ==> forall i ::
                0 <= i < |remote| && remote[i].name in old(claims) && remote[i].name !in faults.stamp &&
                remote[i].sandboxName.Some? &&
                  (remote[i].sandboxName.value in old(sandboxes) || remote[i].name !in faults.link) ==>
                remote[i].name in claims && remote[i].sandboxName.value in sandboxes &&
                claims[remote[i].name].sandbox == Some(sandboxes[remote[i].sandboxName.value].id)
    {
      var known := claims;
      var p := ClaimPass(sandboxes, sandboxes, claims, nextId, 0, 0);
      var i := 0;
      while i < |remote|
        invariant 0 <= i <= |remote|
        invariant p == ClaimFold(known, ClaimPass(old(sandboxes), old(sandboxes), known, old(nextId), 0, 0),
                                 remote[..i], faults)
      {
        p := ClaimStep(known, p, remote[i], faults);
        assert remote[..i + 1][..i] == remote[..i];
        i := i + 1;
      }
      assert remote[..i] == remote;
      sandboxes, claims, nextId, updated, linked := p.live, p.claims, p.nextId, p.updated, p.linked;
      ghost var start := ClaimPass(old(sandboxes), old(sandboxes), known, old(nextId), 0, 0);
      FoldKeepsOtherClaims(known, start, remote, faults);
      ClaimCounts(known, start, remote, faults);
      forall name
        ensures RowAfterClaims(start.live, p.live, name, Winner(known, start.live, remote, faults.link, name))
      {
        ClaimsDeliver(known, start, remote, faults, name);
      }
      if DistinctClaims(remote) {
        forall j | 0 <= j < |remote| && remote[j].name in known
          ensures remote[j].name in claims && remote[j].name in ClaimNames(remote) &&
                  Stamped(known[remote[j].name], claims[remote[j].name], remote[j], remote[j].name !in faults.stamp)
        {
          ClaimStamped(known, start, remote, faults, j);
          assert remote[j] in remote;
        }
        forall j | 0 <= j < |remote| && remote[j].name in known && remote[j].name !in faults.stamp &&
                   remote[j].sandboxName.Some? &&
                   (remote[j].sandboxName.value in start.live || remote[j].name !in faults.link)
          ensures remote[j].sandboxName.value in p.live && remote[j].name in p.claims &&
                  p.claims[remote[j].name].sandbox == Some(p.live[remote[j].sandboxName.value].id)
        {
          ClaimLinked(known, start, remote, faults, j, remote[j].sandboxName.value);
        }
      }
      removed := RemoveStaleClaims(known, ClaimNames(remote), faults.stamp);
      forall name
        ensures name in ClaimNames(remote) <==> exists i :: 0 <= i < |remote| && remote[i].name == name
      {
        ClaimReportedExactly(remote, name);
      }
    }

    /** One namespace's share of a reconciler pass: claims first, then sandboxes. */
    method ConvergeOne(remoteClaims: seq<RemoteClaim>, remote: seq<RemoteSandbox>, owner: string,
                       faults: ClaimFaults, fails: set<Name>)
      requires DistinctNames(remote)
      modifies this
      ensures var p := ClaimPass(old(sandboxes), old(sandboxes), old(claims), old(nextId), 0, 0);
              SyncedTo(ClaimFold(old(claims), p, remoteClaims, faults).live, sandboxes, remote, owner, fails)
      ensures forall name :: name in sandboxes && name !in old(sandboxes) ==>
                var w := Winner(old(claims), old(sandboxes), remoteClaims, faults.link, name);
                sandboxes[name].owner == if w.Some? then w.value.claim.owner else owner
      ensures forall name :: name in sandboxes && name in old(sandboxes) ==>
                sandboxes[name].owner == old(sandboxes)[name].owner
      ensures faults.link == {} && fails == {} ==>
                forall name, k: nat ::
                  FirstToDeliver(old(claims), remoteClaims, name, k) &&
                  name !in old(sandboxes) && Reported(remote, name) ==>
                  name in sandboxes && sandboxes[name].owner == old(claims)[remoteClaims[k].name].owner
    {
      ghost var p := ClaimPass(sandboxes, sandboxes, claims, nextId, 0, 0);
      ghost var known := claims;
      var _, _, _ := SyncClaims(remoteClaims, faults);
      var _, _, _ := SyncSandboxes(remote, owner, fails);
      forall name | name in sandboxes
        ensures if name in p.live then sandboxes[name].owner == p.live[name].owner
                else var w := Winner(known, p.live, remoteClaims, faults.link, name);
                     sandboxes[name].owner == if w.Some? then w.value.claim.owner else owner
      {
        ClaimsBeforeSandboxes(known, p, remoteClaims, faults, sandboxes, remote, owner, fails, name);
      }
      forall name, k: nat | faults.link == {} && FirstToDeliver(known, remoteClaims, name, k) && Reported(remote, name)
        ensures name in sandboxes || name in fails
        ensures Winner(known, p.live, remoteClaims, faults.link, name) ==
                Some(Delivery(known[remoteClaims[k].name], remoteClaims[k]))
      {
        FaultlessWinner(known, p.live, remoteClaims, name, k);
        ClaimsBeforeSandboxes(known, p, remoteClaims, faults, sandboxes, remote, owner, fails, name);
      }
    }

    method RemoveStaleClaims(known: map<Name, Claim>, names: set<Name>, fails: set<Name>) returns (removed: nat)
      requires forall name :: name in known && name !in names ==> name in claims && claims[name] == known[name]
      modifies this`claims
      ensures claims == old(claims) - (StaleClaims(known, names) - fails)
      ensures removed == |StaleClaims(known, names) - fails|
    {
      var todo := known.Keys;
      ghost var doomed := StaleClaims(known, names) - fails;
      removed := 0;
      while todo != {}
        invariant todo <= known.Keys
        invariant claims == old(claims) - (doomed - todo) && removed == |doomed - todo|
        decreases todo
      {
        var name :| name in todo;
        RemovalStep(old(claims), doomed, todo, name);
        if name !in names && known[name].status != ClaimPending && known[name].status != ClaimDeleted {
          if name !in fails && name in claims && claims[name].revision == known[name].revision {
            claims, removed := claims - {name}, removed + 1;
          }
        }
        todo := todo - {name};
      }
      assert doomed - todo == doomed;
    }
  }

  /** Taking one name off the list removes it exactly when it is doomed. */
  lemma RemovalStep<T>(rows: map<Name, T>, doomed: set<Name>, todo: set<Name>, name: Name)
    requires name in todo
    ensures rows - (doomed - (todo - {name})) ==
            if name in doomed then (rows - (doomed - todo)) - {name} else rows - (doomed - todo)
    ensures |doomed - (todo - {name})| == |doomed - todo| + if name in doomed then 1 else 0
    ensures name in rows ==> name in rows - (doomed - todo)
  {
    if name in doomed {
      assert doomed - (todo - {name}) == (doomed - todo) + {name};
    } else {
      assert doomed - (todo - {name}) == doomed - todo;
    }
  }

  lemma StepKeepsOtherClaims(known: map<Name, Claim>, p: ClaimPass, r: RemoteClaim, faults: ClaimFaults)
    ensures var q := ClaimStep(known, p, r, faults);
            q.claims.Keys == p.claims.Keys &&
            forall name :: name in p.claims && name != r.name ==> q.claims[name] == p.claims[name]
  {
  }

  /** The claim loop leaves alone the claims the cluster did not report. */
  lemma {:induction false} FoldKeepsOtherClaims(known: map<Name, Claim>, p: ClaimPass, remote: seq<RemoteClaim>,
                                                faults: ClaimFaults)
    ensures var q := ClaimFold(known, p, remote, faults);
            q.claims.Keys == p.claims.Keys &&
            forall name :: name in p.claims && name !in ClaimNames(remote) ==> q.claims[name] == p.claims[name]
    decreases |remote|
  {
    if remote != [] {
      var init, r := remote[..|remote| - 1], remote[|remote| - 1];
      FoldKeepsOtherClaims(known, p, init, faults);
      StepKeepsOtherClaims(known, ClaimFold(known, p, init, faults), r, faults);
      assert r in remote && forall x :: x in init ==> x in remote;
      assert r.name in ClaimNames(remote);
      assert forall x :: x in init ==> x.name in ClaimNames(remote);
    }
  }

  ghost predicate DistinctClaims(remote: seq<RemoteClaim>) {
    forall i, j :: 0 <= i < j < |remote| ==> remote[i].name != remote[j].name
  }

  /** What a report makes of the claim's row; nothing when the call fails. */
  ghost predicate Stamped(before: Claim, after: Claim, r: RemoteClaim, ok: bool) {
    if ok then
      after == before.(status := after.status, sandboxName := r.sandboxName, sandbox := after.sandbox,
                       revision := before.revision + 1) &&
      (after.status == ClaimReady <==> r.ready && r.sandboxName.Some?) &&
      (after.status == ClaimFailed <==> !r.ready && before.status == ClaimFailed) &&
      after.status != ClaimDeleted && (r.sandboxName.None? ==> after.sandbox == before.sandbox)
    else after == before
  }

  lemma StepStamps(known: map<Name, Claim>, p: ClaimPass, r: RemoteClaim, faults: ClaimFaults)
    requires r.name in known && r.name in p.claims && p.claims[r.name] == known[r.name]
    ensures var q := ClaimStep(known, p, r, faults);
            r.name in q.claims && Stamped(known[r.name], q.claims[r.name], r, r.name !in faults.stamp)
  {
    var l := LinkRow(p, known[r.name], r, r.name !in faults.link);
    assert l.claims == p.claims;
  }

  lemma {:induction false} ClaimStamped(known: map<Name, Claim>, p: ClaimPass, remote: seq<RemoteClaim>,
                                        faults: ClaimFaults, i: nat)
    requires DistinctClaims(remote) && i < |remote| && remote[i].name in known && p.claims == known
    ensures var q := ClaimFold(known, p, remote, faults);
            remote[i].name in q.claims &&
            Stamped(known[remote[i].name], q.claims[remote[i].name], remote[i], remote[i].name !in faults.stamp)
    decreases |remote|
  {
    var init, r := remote[..|remote| - 1], remote[|remote| - 1];
    if i < |init| {
      ClaimStamped(known, p, init, faults, i);
      StepKeepsOtherClaims(known, ClaimFold(known, p, init, faults), r, faults);
    } else {
      FoldKeepsOtherClaims(known, p, init, faults);
      assert forall x :: x in init ==> x.name != r.name;
      StepStamps(known, ClaimFold(known, p, init, faults), r, faults);
    }
  }

  // ---- What a pass achieves ----

  lemma ReportedExactly(remote: seq<RemoteSandbox>, name: Name)
    ensures name in Names(remote) <==> Reported(remote, name)
  {
    if Reported(remote, name) {
      var i :| 0 <= i < |remote| && remote[i].name == name;
      assert remote[i] in remote;
    }
  }

  /** Exactly which names are live after a pass, whatever fails: a row goes when it is not reported,
      unless it is being created, is deleted already, or its removal fails. */
  lemma NamesAfterPass(before: map<Name, Sandbox>, after: map<Name, Sandbox>, remote: seq<RemoteSandbox>,
                       owner: string, fails: set<Name>)
    requires SyncedTo(before, after, remote, owner, fails)
    ensures forall name :: name in after <==>
              if name in before
              then Reported(remote, name) || before[name].lifecycle == Creating || before[name].lifecycle == Deleted ||
                   name in fails
              else Reported(remote, name) && name !in fails
  {
    forall name
      ensures name in Names(remote) <==> Reported(remote, name)
    {
      ReportedExactly(remote, name);
    }
  }

  /** Every row after a pass, field by field. */
  ghost predicate RowSynced(before: map<Name, Sandbox>, row: Sandbox, r: RemoteSandbox, owner: string) {
    row.podIp == r.podIp && row.version == r.version &&
    if r.name in before
    then var was := before[r.name];
         row.id == was.id && row.owner == was.owner && row.claim == was.claim && row.warmPool == was.warmPool &&
         row.lifecycle == was.lifecycle && row.revision == was.revision + 1
    else row.owner == owner && row.claim == None && row.warmPool == "" && row.lifecycle == Ready && row.revision == 1
  }

  /** A reported sandbox has what the cluster reports; an imported one is ready and belongs to the
      namespace owner; every other row that stays is unchanged. */
  lemma RowsAfterPass(before: map<Name, Sandbox>, after: map<Name, Sandbox>, remote: seq<RemoteSandbox>,
                      owner: string, fails: set<Name>)
    requires SyncedTo(before, after, remote, owner, fails)
    ensures forall i :: 0 <= i < |remote| && remote[i].name !in fails ==>
              remote[i].name in after && RowSynced(before, after[remote[i].name], remote[i], owner)
    ensures forall name :: name in after && (!Reported(remote, name) || name in fails) ==>
              name in before && after[name] == before[name]
  {
    NamesAfterPass(before, after, remote, owner, fails);
    forall i | 0 <= i < |remote| && remote[i].name !in fails
      ensures remote[i].name in after && RowSynced(before, after[remote[i].name], remote[i], owner)
    {
      assert remote[i] in remote && remote[i].name in Names(remote);
    }
    forall name | name in after && (!Reported(remote, name) || name in fails)
      ensures name in before && after[name] == before[name]
    {
      ReportedExactly(remote, name);
    }
  }

  lemma LastNameIsNew(remote: seq<RemoteSandbox>)
    requires DistinctNames(remote) && remote != []
    ensures DistinctNames(remote[..|remote| - 1]) && remote[|remote| - 1].name !in Names(remote[..|remote| - 1])
  {
  }

  lemma {:induction false} NamesCount(remote: seq<RemoteSandbox>)
    requires DistinctNames(remote)
    ensures |Names(remote)| == |remote|
  {
    if remote != [] {
      var init, r := remote[..|remote| - 1], remote[|remote| - 1];
      LastNameIsNew(remote);
      NamesCount(init);
      NamesSnoc(init, r);
      assert remote == init + [r];
    }
  }

  /** After a failure-free pass a name is live exactly when it is reported or had a row that is being
      created or deleted already, and every reported sandbox was either imported or updated. */
  lemma PassConverges(before: map<Name, Sandbox>, after: map<Name, Sandbox>, remote: seq<RemoteSandbox>, owner: string)
    requires SyncedTo(before, after, remote, owner, {}) && DistinctNames(remote)
    ensures forall name :: name in after <==>
              Reported(remote, name) ||
              (name in before && (before[name].lifecycle == Creating || before[name].lifecycle == Deleted))
    ensures |Unknown(Names(remote), before, {})| + |Known(Names(remote), before, {})| == |remote|
  {
    NamesAfterPass(before, after, remote, owner, {});
    NamesCount(remote);
    EachSeenOnce(Names(remote), before);
  }

  lemma EachSeenOnce(names: set<Name>, before: map<Name, Sandbox>)
    ensures |Unknown(names, before, {})| + |Known(names, before, {})| == |names|
  {
    assert names == Unknown(names, before, {}) + Known(names, before, {});
  }

  lemma KeysAfterPass(before: map<Name, Sandbox>, after: map<Name, Sandbox>, remote: seq<RemoteSandbox>, owner: string)
    requires SyncedTo(before, after, remote, owner, {})
    ensures forall name :: name in after <==> name in Names(remote) || (name in before && Protected(before[name]))
  {
  }

  /** A second pass over the same report imports nothing, removes nothing, updates every reported
      sandbox and changes only revisions. */
  lemma SecondPassIsQuiet(before: map<Name, Sandbox>, after: map<Name, Sandbox>, again: map<Name, Sandbox>,
                          remote: seq<RemoteSandbox>, owner: string)
    requires SyncedTo(before, after, remote, owner, {}) && SyncedTo(after, again, remote, owner, {}) &&
             DistinctNames(remote)
    ensures Unknown(Names(remote), after, {}) == {} && Stale(after, Names(remote)) == {} &&
            Gone(after, remote, {}) == {}
    ensures Known(Names(remote), after, {}) == Names(remote)
    ensures again.Keys == after.Keys
    ensures forall name :: name in after ==> again[name] == after[name].(revision := again[name].revision)
  {
    KeysAfterPass(before, after, remote, owner);
    KeysAfterPass(after, again, remote, owner);
    GoneExactly(after, remote, {});
    forall name | name in after && name !in Names(remote)
      ensures Protected(after[name])
    {
      assert after[name] == before[name];
    }
    forall name | name in after
      ensures again[name] == after[name].(revision := again[name].revision)
    {
      SeenAgain(before, after, again, remote, owner, name);
    }
  }

  lemma SeenAgain(before: map<Name, Sandbox>, after: map<Name, Sandbox>, again: map<Name, Sandbox>,
                  remote: seq<RemoteSandbox>, owner: string, name: Name)
    requires SyncedTo(before, after, remote, owner, {}) && SyncedTo(after, again, remote, owner, {}) &&
             DistinctNames(remote)
    requires name in after && name in again
    ensures again[name] == after[name].(revision := again[name].revision)
  {
    if name in Names(remote) {
      var r :| r in remote && r.name == name;
      assert after[name].podIp == r.podIp && after[name].version == r.version;
      assert again[name] == Observe(after[name], r);
    }
  }

  // ---- Claims first ----

  /** The `k`th reported claim is known to the Hub and delivered the sandbox. */
  predicate Delivers(known: map<Name, Claim>, remote: seq<RemoteClaim>, name: Name, k: nat) {
    k < |remote| && remote[k].name in known && remote[k].sandboxName == Some(name)
  }

  ghost predicate FirstToDeliver(known: map<Name, Claim>, remote: seq<RemoteClaim>, name: Name, k: nat) {
    Delivers(known, remote, name, k) && forall j :: 0 <= j < k ==> !Delivers(known, remote, name, j)
  }

  /** A reported claim that the Hub knows. */
  datatype Delivery = Delivery(claim: Claim, report: RemoteClaim)

  /** What the claim loop makes of one sandbox name. `won` is the delivery that gets it. */
  ghost predicate RowAfterClaims(before: map<Name, Sandbox>, after: map<Name, Sandbox>, name: Name,
                                 won: Option<Delivery>) {
    (name in after <==> name in before || won.Some?) &&
    (name in before && (won.None? || before[name].claim.Some?) ==> after[name] == before[name]) &&
    (won.Some? && !(name in before && before[name].claim.Some?) ==>
       after[name].claim == Some(won.value.claim.id) && after[name].warmPool == won.value.claim.warmPool &&
       after[name].version == won.value.report.version &&
       if name in before
       then after[name].id == before[name].id && after[name].owner == before[name].owner &&
            after[name].lifecycle == before[name].lifecycle && after[name].revision == before[name].revision + 1 &&
            after[name].podIp == (if won.value.report.podIp != "" then won.value.report.podIp else before[name].podIp)
       else after[name].owner == won.value.claim.owner && after[name].lifecycle == Ready &&
            after[name].revision == 1 && after[name].podIp == won.value.report.podIp)
  }

  /** The first report of a known claim that delivered the sandbox. */
  function FirstReport(known: map<Name, Claim>, remote: seq<RemoteClaim>, name: Name): (r: Option<RemoteClaim>)
    ensures r.Some? ==> r.value.name in known
    decreases |remote|
  {
    if remote == [] then None
    else
      var n := |remote| - 1;
      var earlier := FirstReport(known, remote[..n], name);
      if earlier.Some? then earlier else if Delivers(known, remote, name, n) then Some(remote[n]) else None
  }

  lemma {:induction false} FirstReportSpec(known: map<Name, Claim>, remote: seq<RemoteClaim>, name: Name, k: nat)
    requires FirstToDeliver(known, remote, name, k)
    ensures FirstReport(known, remote, name) == Some(remote[k])
    decreases |remote|
  {
    var init := remote[..|remote| - 1];
    assert forall j :: 0 <= j < |init| ==> Delivers(known, init, name, j) == Delivers(known, remote, name, j);
    if k < |init| {
      FirstReportSpec(known, init, name, k);
    } else {
      NoReport(known, init, name);
    }
  }

  lemma {:induction false} NoReport(known: map<Name, Claim>, remote: seq<RemoteClaim>, name: Name)
    requires forall j :: 0 <= j < |remote| ==> !Delivers(known, remote, name, j)
    ensures FirstReport(known, remote, name) == None
    decreases |remote|
  {
    if remote != [] {
      var init := remote[..|remote| - 1];
      assert forall j :: 0 <= j < |init| ==> Delivers(known, init, name, j) == Delivers(known, remote, name, j);
      NoReport(known, init, name);
    }
  }

  /** The claim that gets the sandbox. A row that existed is offered to the first claim only, since
      the loop remembers it as linked whether or not the link was stored. A new row goes to the
      first claim whose create does not fail. */
  function Winner(known: map<Name, Claim>, before: map<Name, Sandbox>, remote: seq<RemoteClaim>, link: set<Name>,
                  name: Name): Option<Delivery>
  {
    var first := FirstReport(if name in before then known else known - link, remote, name);
    if first.Some? && first.value.name !in link then Some(Delivery(known[first.value.name], first.value)) else None
  }

  /** What the loop remembers: a row it began with counts as linked once a known claim named it. */
  ghost predicate Remembers(known: map<Name, Claim>, before: map<Name, Sandbox>, q: ClaimPass,
                            remote: seq<RemoteClaim>, name: Name) {
    (name in q.memory <==> name in q.live) && (name in before ==> name in q.live) &&
    (name in q.live ==>
       q.memory[name].id == q.live[name].id &&
       (q.memory[name].claim.Some? <==>
        name in before ==> before[name].claim.Some? || FirstReport(known, remote, name).Some?))
  }

  lemma LinkRowElsewhere(p: ClaimPass, claim: Claim, r: RemoteClaim, ok: bool, name: Name)
    requires r.sandboxName != Some(name)
    ensures var q := LinkRow(p, claim, r, ok);
            (name in q.live <==> name in p.live) && (name in q.memory <==> name in p.memory) &&
            (name in p.live ==> q.live[name] == p.live[name]) && (name in p.memory ==> q.memory[name] == p.memory[name])
  {
  }

  lemma StepLinks(known: map<Name, Claim>, p: ClaimPass, r: RemoteClaim, faults: ClaimFaults)
    ensures var q := ClaimStep(known, p, r, faults);
            if r.name !in known then q.live == p.live && q.memory == p.memory
            else var l := LinkRow(p, known[r.name], r, r.name !in faults.link); q.live == l.live && q.memory == l.memory
  {
  }

  lemma FaultyStep(known: map<Name, Claim>, before: map<Name, Sandbox>, mid: ClaimPass, remote: seq<RemoteClaim>,
                   faults: ClaimFaults, name: Name)
    requires remote != [] && Remembers(known, before, mid, remote[..|remote| - 1], name)
    requires RowAfterClaims(before, mid.live, name, Winner(known, before, remote[..|remote| - 1], faults.link, name))
    ensures var q := ClaimStep(known, mid, remote[|remote| - 1], faults);
            Remembers(known, before, q, remote, name) &&
            RowAfterClaims(before, q.live, name, Winner(known, before, remote, faults.link, name))
  {
    var r := remote[|remote| - 1];
    StepLinks(known, mid, r, faults);
    if r.name in known && r.sandboxName != Some(name) {
      LinkRowElsewhere(mid, known[r.name], r, r.name !in faults.link, name);
    }
  }

  /** Whatever calls fail, the claim loop links each sandbox name to the claim that wins it, or
      creates its row for that claim, and leaves every other row as it was. */
  lemma {:induction false} ClaimsDeliver(known: map<Name, Claim>, p: ClaimPass, remote: seq<RemoteClaim>,
                                         faults: ClaimFaults, name: Name)
    requires p.memory == p.live
    ensures var q := ClaimFold(known, p, remote, faults);
            Remembers(known, p.live, q, remote, name) &&
            RowAfterClaims(p.live, q.live, name, Winner(known, p.live, remote, faults.link, name))
    decreases |remote|
  {
    if remote != [] {
      var init := remote[..|remote| - 1];
      ClaimsDeliver(known, p, init, faults, name);
      FaultyStep(known, p.live, ClaimFold(known, p, init, faults), remote, faults, name);
    }
  }

  lemma StepKeepsIds(known: map<Name, Claim>, p: ClaimPass, r: RemoteClaim, faults: ClaimFaults, name: Name)
    requires name in p.live
    ensures var q := ClaimStep(known, p, r, faults); name in q.live && q.live[name].id == p.live[name].id
  {
    StepLinks(known, p, r, faults);
  }

  /** A claim is stamped with the id of the row its report names, if there is one by then. */
  lemma StepStampsRow(known: map<Name, Claim>, before: map<Name, Sandbox>, mid: ClaimPass, remote: seq<RemoteClaim>,
                      faults: ClaimFaults, name: Name)
    requires remote != [] && Remembers(known, before, mid, remote[..|remote| - 1], name)
    requires var r := remote[|remote| - 1];
             r.name in known && r.name in mid.claims && r.name !in faults.stamp && r.sandboxName == Some(name) &&
             (name in before || r.name !in faults.link)
    ensures var r := remote[|remote| - 1];
            var q := ClaimStep(known, mid, r, faults);
            r.name in q.claims && name in q.live && q.claims[r.name].sandbox == Some(q.live[name].id)
  {
  }

  lemma {:induction false} ClaimLinked(known: map<Name, Claim>, p: ClaimPass, remote: seq<RemoteClaim>,
                                       faults: ClaimFaults, i: nat, name: Name)
    requires DistinctClaims(remote) && i < |remote| && p.claims == known && p.memory == p.live
    requires remote[i].name in known && remote[i].name !in faults.stamp && remote[i].sandboxName == Some(name)
    requires name in p.live || remote[i].name !in faults.link
    ensures var q := ClaimFold(known, p, remote, faults);
            remote[i].name in q.claims && name in q.live && q.claims[remote[i].name].sandbox == Some(q.live[name].id)
    decreases |remote|
  {
    var init, r := remote[..|remote| - 1], remote[|remote| - 1];
    var mid := ClaimFold(known, p, init, faults);
    if i < |init| {
      ClaimLinked(known, p, init, faults, i, name);
      StepKeepsOtherClaims(known, mid, r, faults);
      StepKeepsIds(known, mid, r, faults, name);
    } else {
      ClaimsDeliver(known, p, init, faults, name);
      FoldKeepsOtherClaims(known, p, init, faults);
      StepStampsRow(known, p.live, mid, remote, faults, name);
    }
  }

  /** How many reported claims the Hub knows and can stamp. */
  function StampedReports(known: map<Name, Claim>, remote: seq<RemoteClaim>, stamp: set<Name>): nat {
    if remote == [] then 0
    else
      var r := remote[|remote| - 1];
      StampedReports(known, remote[..|remote| - 1], stamp) + if r.name in known && r.name !in stamp then 1 else 0
  }

  /** A claim wins the sandbox, whose row was not linked before. */
  predicate IsWon(known: map<Name, Claim>, before: map<Name, Sandbox>, remote: seq<RemoteClaim>, link: set<Name>,
                  name: Name) {
    !(name in before && before[name].claim.Some?) && Winner(known, before, remote, link, name).Some?
  }

  /** The sandboxes that claims win. */
  function Won(known: map<Name, Claim>, before: map<Name, Sandbox>, remote: seq<RemoteClaim>,
               link: set<Name>): set<Name> {
    set r | r in remote && r.sandboxName.Some? && IsWon(known, before, remote, link, r.sandboxName.value) ::
      r.sandboxName.value
  }

  lemma {:induction false} ReportedByOne(known: map<Name, Claim>, remote: seq<RemoteClaim>, name: Name)
    requires FirstReport(known, remote, name).Some?
    ensures exists r :: r in remote && r.sandboxName == Some(name)
    decreases |remote|
  {
    var init, r := remote[..|remote| - 1], remote[|remote| - 1];
    assert r in remote;
    if FirstReport(known, init, name).Some? {
      ReportedByOne(known, init, name);
      var q :| q in init && q.sandboxName == Some(name);
      assert q in remote;
    }
  }

  lemma WonExactly(known: map<Name, Claim>, before: map<Name, Sandbox>, remote: seq<RemoteClaim>, link: set<Name>,
                   name: Name)
    ensures name in Won(known, before, remote, link) <==> IsWon(known, before, remote, link, name)
  {
    if IsWon(known, before, remote, link, name) {
      ReportedByOne(if name in before then known else known - link, remote, name);
    }
  }

  /** A report changes the winner of its own sandbox only, and only when there was none. */
  lemma WinnerSnoc(known: map<Name, Claim>, before: map<Name, Sandbox>, remote: seq<RemoteClaim>, link: set<Name>,
                   name: Name)
    requires remote != []
    ensures var earlier := Winner(known, before, remote[..|remote| - 1], link, name);
            earlier.Some? || remote[|remote| - 1].sandboxName != Some(name) ==>
              Winner(known, before, remote, link, name) == earlier
  {
  }

  lemma WonSnoc(known: map<Name, Claim>, before: map<Name, Sandbox>, remote: seq<RemoteClaim>, link: set<Name>)
    requires remote != []
    ensures var init, next := remote[..|remote| - 1], remote[|remote| - 1].sandboxName;
            Won(known, before, remote, link) ==
            Won(known, before, init, link) +
            if next.Some? && IsWon(known, before, remote, link, next.value) then {next.value} else {}
  {
    var init, next := remote[..|remote| - 1], remote[|remote| - 1].sandboxName;
    forall name
      ensures name in Won(known, before, remote, link) <==>
              name in Won(known, before, init, link) ||
              (next == Some(name) && IsWon(known, before, remote, link, name))
    {
      WonExactly(known, before, init, link, name);
      WonExactly(known, before, remote, link, name);
      WinnerSnoc(known, before, remote, link, name);
    }
  }

  lemma CountsOfStep(known: map<Name, Claim>, before: map<Name, Sandbox>, mid: ClaimPass, remote: seq<RemoteClaim>,
                     faults: ClaimFaults, name: Name)
    requires remote != [] && mid.claims.Keys == known.Keys
    requires remote[|remote| - 1].sandboxName.Some? ==> remote[|remote| - 1].sandboxName == Some(name)
    requires Remembers(known, before, mid, remote[..|remote| - 1], name)
    requires RowAfterClaims(before, mid.live, name, Winner(known, before, remote[..|remote| - 1], faults.link, name))
    ensures var r := remote[|remote| - 1];
            var q := ClaimStep(known, mid, r, faults);
            q.claims.Keys == known.Keys &&
            q.updated == mid.updated + (if r.name in known && r.name !in faults.stamp then 1 else 0) &&
            q.linked == mid.linked +
              (if r.sandboxName.Some? && IsWon(known, before, remote, faults.link, name) &&
                  !IsWon(known, before, remote[..|remote| - 1], faults.link, name) then 1 else 0)
  {
  }

  lemma WonCount(known: map<Name, Claim>, before: map<Name, Sandbox>, remote: seq<RemoteClaim>, link: set<Name>,
                 name: Name)
    requires remote != []
    requires remote[|remote| - 1].sandboxName.Some? ==> remote[|remote| - 1].sandboxName == Some(name)
    ensures |Won(known, before, remote, link)| == |Won(known, before, remote[..|remote| - 1], link)| +
              if remote[|remote| - 1].sandboxName.Some? && IsWon(known, before, remote, link, name) &&
                 !IsWon(known, before, remote[..|remote| - 1], link, name) then 1 else 0
  {
    var earlier := Won(known, before, remote[..|remote| - 1], link);
    WonSnoc(known, before, remote, link);
    WonExactly(known, before, remote[..|remote| - 1], link, name);
    assert earlier + {} == earlier;
    if name in earlier {
      assert earlier + {name} == earlier;
    }
  }

  /** Whatever calls fail, the claim loop counts as updated every reported claim it knows and can
      stamp, and as linked every sandbox that a claim wins, once however many claims name it. */
  lemma {:induction false} ClaimCounts(known: map<Name, Claim>, p: ClaimPass, remote: seq<RemoteClaim>,
                                       faults: ClaimFaults)
    requires p.memory == p.live && p.claims.Keys == known.Keys && p.updated == p.linked == 0
    ensures var q := ClaimFold(known, p, remote, faults);
            q.claims.Keys == known.Keys && q.updated == StampedReports(known, remote, faults.stamp) &&
            q.linked == |Won(known, p.live, remote, faults.link)|
    decreases |remote|
  {
    if remote != [] {
      var init, r := remote[..|remote| - 1], remote[|remote| - 1];
      var name := if r.sandboxName.Some? then r.sandboxName.value else 0;
      ClaimCounts(known, p, init, faults);
      ClaimsDeliver(known, p, init, faults, name);
      CountsOfStep(known, p.live, ClaimFold(known, p, init, faults), remote, faults, name);
      WonCount(known, p.live, remote, faults.link, name);
    }
  }

  lemma FaultlessWinner(known: map<Name, Claim>, before: map<Name, Sandbox>, remote: seq<RemoteClaim>, name: Name,
                        k: nat)
    requires FirstToDeliver(known, remote, name, k)
    ensures Winner(known, before, remote, {}, name) == Some(Delivery(known[remote[k].name], remote[k]))
  {
    assert known - {} == known;
    FirstReportSpec(known, remote, name, k);
  }

  /** Who owns a row after claims and sandboxes were synced in that order, whatever fails: a row
      keeps its owner, a new row belongs to the claim that wins it, and only a row that no claim
      wins to the namespace owner. */
  lemma ClaimsBeforeSandboxes(known: map<Name, Claim>, p: ClaimPass, claims: seq<RemoteClaim>, faults: ClaimFaults,
                              after: map<Name, Sandbox>, remote: seq<RemoteSandbox>, owner: string, fails: set<Name>,
                              name: Name)
    requires p.memory == p.live && SyncedTo(ClaimFold(known, p, claims, faults).live, after, remote, owner, fails)
    ensures var w := Winner(known, p.live, claims, faults.link, name);
            (name in after <==>
             if name in p.live
             then Reported(remote, name) || name in fails ||
                  p.live[name].lifecycle == Creating || p.live[name].lifecycle == Deleted
             else if w.Some? then Reported(remote, name) || name in fails
             else Reported(remote, name) && name !in fails) &&
            (name in after ==>
               if name in p.live then after[name].owner == p.live[name].owner
               else if w.Some? then after[name].owner == w.value.claim.owner &&
                 after[name].claim == Some(w.value.claim.id)
               else after[name].owner == owner && after[name].claim == None)
  {
    var mid := ClaimFold(known, p, claims, faults).live;
    ClaimsDeliver(known, p, claims, faults, name);
    NamesAfterPass(mid, after, remote, owner, fails);
    if name in after {
      RowAfterPass(mid, after, remote, owner, fails, name);
    }
  }

  lemma RowAfterPass(before: map<Name, Sandbox>, after: map<Name, Sandbox>, remote: seq<RemoteSandbox>, owner: string,
                     fails: set<Name>, name: Name)
    requires SyncedTo(before, after, remote, owner, fails) && name in after
    ensures if name in before then after[name].owner == before[name].owner && after[name].claim == before[name].claim
            else after[name].owner == owner && after[name].claim == None
  {
    RowsAfterPass(before, after, remote, owner, fails);
    if Reported(remote, name) {
      var i :| 0 <= i < |remote| && remote[i].name == name;
      assert name !in fails ==> RowSynced(before, after[name], remote[i], owner);
    }
  }
}
