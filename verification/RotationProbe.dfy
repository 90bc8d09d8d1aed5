/** Which credential a rotation really probes: RotateCredential of internal/biz/cluster_usecase.go
    over the client cache of internal/data/kubernetes_client_pool.go, for one cluster.

    Rotations and ordinary calls interleave. The cache is asked by revision, and a rotation that
    fails after its probe does not invalidate it. */
module RotationProbe {
  import opened Order

  /** A credential by its content. A client is known by the credential it was built from. */
  type Cred = nat

  /** The cached client and the revision it is cached under. */
  datatype Entry = Entry(revision: nat, client: Cred)

  /** How far a rotation has come. `revision` is the one it stores its credential under. */
  datatype Request =
    | Loaded(expected: nat, revision: nat, cred: Cred)
    | Stored(expected: nat, revision: nat, cred: Cred)
    | Probed(expected: nat, revision: nat, cred: Cred, used: Cred)
    | Undoing(revision: nat)
    | Committed

  /** A committed rotation and the credential of the client that was probed for it. */
  datatype Commit = Commit(revision: nat, cred: Cred, used: Cred)

  /** `taken` are the revisions with a stored credential, `locators` the ones ever in use. */
  datatype State = State(
    rowRevision: nat, revision: nat, taken: set<nat>, locators: set<Entry>,
    cache: Option<Entry>, requests: map<nat, Request>, commits: seq<Commit>)

  function Created(cred: Cred): State {
    State(1, 1, {1}, {Entry(1, cred)}, None, map[], [])
  }

  datatype Step =
    | Load(req: nat, cred: Cred)
    | Put(req: nat, ok: bool)
    | Probe(req: nat, built: bool, ok: bool)
    | Cas(req: nat, ok: bool)
    | Undo(req: nat, ok: bool)
    | Invalidate(req: nat)
    | Use(locator: Entry, built: bool)
    | EditRow
    | Evict

  /** getOrBuild: a hit needs the revision only; a client that cannot be built is not cached. */
  function Client(cache: Option<Entry>, revision: nat, cred: Cred, built: bool): Option<Cred> {
    if cache.Some? && cache.value.revision == revision then Some(cache.value.client)
    else if built then Some(cred)
    else None
  }

  function Caching(cache: Option<Entry>, revision: nat, cred: Cred, built: bool): Option<Entry> {
    if (cache.Some? && cache.value.revision == revision) || !built then cache else Some(Entry(revision, cred))
  }

  function Goto(s: State, req: nat, r: Request): State {
    s.(requests := s.requests[req := r])
  }

  function Finish(s: State, req: nat): State {
    s.(requests := s.requests - {req})
  }

  function ProbeStep(s: State, req: nat, built: bool, ok: bool): State {
    if req !in s.requests || !s.requests[req].Stored? then s
    else
      var r := s.requests[req];
      var client := Client(s.cache, r.revision, r.cred, built);
      var t := s.(cache := Caching(s.cache, r.revision, r.cred, built));
      if client.Some? && ok then Goto(t, req, Probed(r.expected, r.revision, r.cred, client.value))
      else Goto(t, req, Undoing(r.revision))
  }

  function CasStep(s: State, req: nat, ok: bool): State {
    if req !in s.requests || !s.requests[req].Probed? then s
    else
      var r := s.requests[req];
      if ok && s.rowRevision == r.expected then
        Goto(s.(rowRevision := r.expected + 1, revision := r.revision,
                locators := s.locators + {Entry(r.revision, r.cred)},
                commits := s.commits + [Commit(r.revision, r.cred, r.used)]), req, Committed)
      else Goto(s, req, Undoing(r.revision))
  }

  function Next(s: State, a: Step): State {
    match a
    case Load(req, cred) =>
      if req in s.requests then s else Goto(s, req, Loaded(s.rowRevision, s.revision + 1, cred))
    case Put(req, ok) =>
      if req !in s.requests || !s.requests[req].Loaded? then s
      else
        var r := s.requests[req];
        if !ok || r.revision in s.taken then Finish(s, req)
        else Goto(s.(taken := s.taken + {r.revision}), req, Stored(r.expected, r.revision, r.cred))
    case Probe(req, built, ok) => ProbeStep(s, req, built, ok)
    case Cas(req, ok) => CasStep(s, req, ok)
    case Undo(req, ok) =>
      if req !in s.requests || !s.requests[req].Undoing? then s
      else if ok then Finish(s, req).(taken := s.taken - {s.requests[req].revision})
      else Finish(s, req)
    case Invalidate(req) =>
      if req !in s.requests || !s.requests[req].Committed? then s else Finish(s, req).(cache := None)
    case Use(locator, built) =>
      if locator !in s.locators then s
      else s.(cache := Caching(s.cache, locator.revision, locator.client, built))
    case EditRow => s.(rowRevision := s.rowRevision + 1)
    case Evict => s.(cache := None)
  }

  function Run(s: State, steps: seq<Step>): State
    decreases |steps|
  {
    if steps == [] then s else Next(Run(s, steps[..|steps| - 1]), steps[|steps| - 1])
  }

  lemma RunStep(s: State, steps: seq<Step>, k: nat)
    requires k < |steps|
    ensures Run(s, steps[..k + 1]) == Next(Run(s, steps[..k]), steps[k])
  {
    assert steps[..k + 1][..k] == steps[..k];
  }

  // ---- What is cached ----

  ghost function CacheAt(first: Cred, steps: seq<Step>, k: nat): Option<Entry> {
    if k <= |steps| then Run(Created(first), steps[..k]).cache else None
  }

  /** Step `q` is a rotation's probe that builds a client for `cred` and caches it. */
  ghost predicate FillsAt(first: Cred, steps: seq<Step>, q: nat, revision: nat, cred: Cred) {
    q < |steps| && Fills(Run(Created(first), steps[..q]), steps[q], revision, cred)
  }

  predicate Fills(s: State, a: Step, revision: nat, cred: Cred) {
    a.Probe? && a.built && a.req in s.requests && s.requests[a.req].Stored? &&
    s.requests[a.req].revision == revision && s.requests[a.req].cred == cred &&
    !(s.cache.Some? && s.cache.value.revision == revision)
  }

  /** Locators in use are older than the revision any rotation works on. */
  ghost predicate Fresh(s: State) {
    (forall l :: l in s.locators ==> l.revision <= s.revision) &&
    (forall req :: req in s.requests ==> RequestOk(s, s.requests[req]))
  }

  /** A rotation works on the next revision, unless the row has moved on and its commit will fail. */
  ghost predicate RequestOk(s: State, r: Request) {
    (r.Loaded? || r.Stored? || r.Probed?) ==>
      r.expected <= s.rowRevision && r.revision <= s.revision + 1 &&
      (r.expected == s.rowRevision ==> r.revision == s.revision + 1)
  }

  lemma StepKeepsFresh(s: State, a: Step)
    requires Fresh(s)
    ensures Fresh(Next(s, a))
  {
    forall req | req in Next(s, a).requests
      ensures RequestOk(Next(s, a), Next(s, a).requests[req])
    {
      assert req in s.requests ==> RequestOk(s, s.requests[req]);
    }
  }

  lemma {:induction false} RunKeepsFresh(first: Cred, steps: seq<Step>)
    ensures Fresh(Run(Created(first), steps))
    decreases |steps|
  {
    if steps != [] {
      RunKeepsFresh(first, steps[..|steps| - 1]);
      StepKeepsFresh(Run(Created(first), steps[..|steps| - 1]), steps[|steps| - 1]);
    }
  }

  /** From the probe at `q` up to step `p` the cache holds what that probe put there. */
  ghost predicate CachedSince(first: Cred, steps: seq<Step>, q: nat, p: nat, revision: nat, cred: Cred) {
    FillsAt(first, steps, q, revision, cred) &&
    forall m: nat :: q < m <= p ==> CacheAt(first, steps, m) == Some(Entry(revision, cred))
  }

  /** How a client of a revision not yet in use can come to be in the cache after a step. */
  lemma CachedBy(s: State, a: Step, e: Entry)
    requires Fresh(s) && Next(s, a).cache == Some(e) && e.revision > Next(s, a).revision
    ensures s.revision <= Next(s, a).revision && (Fills(s, a, e.revision, e.client) || s.cache == Some(e))
  {
    assert (a.Probe? || a.Cas?) && a.req in s.requests ==> RequestOk(s, s.requests[a.req]);
  }

  lemma {:induction false} CacheOrigin(first: Cred, steps: seq<Step>, p: nat, e: Entry) returns (q: nat)
    requires p <= |steps| && CacheAt(first, steps, p) == Some(e) &&
             e.revision > Run(Created(first), steps[..p]).revision
    ensures q < p && CachedSince(first, steps, q, p, e.revision, e.client)
    decreases p
  {
    assert p > 0;
    var s := Run(Created(first), steps[..p - 1]);
    RunStep(Created(first), steps, p - 1);
    RunKeepsFresh(first, steps[..p - 1]);
    CachedBy(s, steps[p - 1], e);
    if Fills(s, steps[p - 1], e.revision, e.client) {
      q := p - 1;
    } else {
      q := CacheOrigin(first, steps, p - 1, e);
    }
  }

  // ---- Which probe a commit rests on ----

  /** Step `p` is the request's probe; it used the client of `used`. */
  ghost predicate ProbesAt(first: Cred, steps: seq<Step>, p: nat, req: nat, c: Commit) {
    p < |steps| && Probes(Run(Created(first), steps[..p]), steps[p], req, c)
  }

  ghost predicate Probes(s: State, a: Step, req: nat, c: Commit) {
    a.Probe? && a.ok && a.req == req && req in s.requests && s.requests[req].Stored? &&
    s.requests[req].revision == c.revision && s.requests[req].cred == c.cred &&
    Client(s.cache, c.revision, c.cred, a.built) == Some(c.used)
  }

  ghost predicate Traced(first: Cred, steps: seq<Step>, n: nat, s: State) {
    (forall req :: req in s.requests && s.requests[req].Probed? ==>
       RestsOnProbe(first, steps, n, req, s.requests[req])) &&
    (forall k :: 0 <= k < |s.commits| ==> CommitRests(first, steps, n, s.commits[k]))
  }

  ghost predicate RestsOnProbe(first: Cred, steps: seq<Step>, n: nat, req: nat, r: Request)
    requires r.Probed?
  {
    exists p: nat :: p < n && ProbesAt(first, steps, p, req, Commit(r.revision, r.cred, r.used))
  }

  /** Some request made the probe, with the commit's revision not yet in use. */
  ghost predicate CommitRests(first: Cred, steps: seq<Step>, n: nat, c: Commit) {
    exists req: nat, p: nat :: p < n && FreshProbe(first, steps, p, req, c)
  }

  ghost predicate FreshProbe(first: Cred, steps: seq<Step>, p: nat, req: nat, c: Commit) {
    ProbesAt(first, steps, p, req, c) && Run(Created(first), steps[..p]).revision < c.revision
  }

  lemma RevisionOfStep(s: State, a: Step)
    requires Fresh(s)
    ensures s.revision <= Next(s, a).revision
  {
    assert a.Cas? && a.req in s.requests ==> RequestOk(s, s.requests[a.req]);
  }

  lemma {:induction false} RevisionGrows(first: Cred, steps: seq<Step>, p: nat, n: nat)
    requires p <= n <= |steps|
    ensures Run(Created(first), steps[..p]).revision <= Run(Created(first), steps[..n]).revision
    decreases n
  {
    if p < n {
      RevisionGrows(first, steps, p, n - 1);
      RunStep(Created(first), steps, n - 1);
      RunKeepsFresh(first, steps[..n - 1]);
      RevisionOfStep(Run(Created(first), steps[..n - 1]), steps[n - 1]);
    }
  }

  /** A request is in the probed state because it was, or because this step is its probe. */
  lemma ProbedBy(s: State, a: Step, req: nat)
    requires req in Next(s, a).requests && Next(s, a).requests[req].Probed?
    ensures var r := Next(s, a).requests[req];
            (req in s.requests && s.requests[req] == r) || Probes(s, a, req, Commit(r.revision, r.cred, r.used))
  {
  }

  /** A commit is an old one, or this step is the compare-and-set of a probed request. */
  lemma CommittedBy(s: State, a: Step, k: nat)
    requires Fresh(s) && k < |Next(s, a).commits|
    ensures k < |s.commits| ==> Next(s, a).commits[k] == s.commits[k]
    ensures k >= |s.commits| ==>
              a.Cas? && a.req in s.requests && s.requests[a.req].Probed? &&
              var r := s.requests[a.req];
              Next(s, a).commits[k] == Commit(r.revision, r.cred, r.used) && s.revision < r.revision
  {
    assert a.Cas? && a.req in s.requests ==> RequestOk(s, s.requests[a.req]);
  }

  lemma StepTracesRequest(first: Cred, steps: seq<Step>, n: nat, s: State, req: nat)
    requires n < |steps| && s == Run(Created(first), steps[..n]) && Traced(first, steps, n, s)
    requires req in Next(s, steps[n]).requests && Next(s, steps[n]).requests[req].Probed?
    ensures RestsOnProbe(first, steps, n + 1, req, Next(s, steps[n]).requests[req])
  {
    var r := Next(s, steps[n]).requests[req];
    ProbedBy(s, steps[n], req);
    if Probes(s, steps[n], req, Commit(r.revision, r.cred, r.used)) {
      assert ProbesAt(first, steps, n, req, Commit(r.revision, r.cred, r.used));
    } else {
      var p: nat :| p < n && ProbesAt(first, steps, p, req, Commit(r.revision, r.cred, r.used));
      assert p < n + 1;
    }
  }

  lemma StepTracesCommit(first: Cred, steps: seq<Step>, n: nat, s: State, k: nat)
    requires n < |steps| && s == Run(Created(first), steps[..n]) && Fresh(s) && Traced(first, steps, n, s)
    requires k < |Next(s, steps[n]).commits|
    ensures CommitRests(first, steps, n + 1, Next(s, steps[n]).commits[k])
  {
    CommittedBy(s, steps[n], k);
    if k < |s.commits| {
      var req: nat, p: nat :| p < n && FreshProbe(first, steps, p, req, s.commits[k]);
      assert p < n + 1;
    } else {
      var r := s.requests[steps[n].req];
      var p: nat :| p < n && ProbesAt(first, steps, p, steps[n].req, Commit(r.revision, r.cred, r.used));
      RevisionGrows(first, steps, p, n);
      assert FreshProbe(first, steps, p, steps[n].req, Commit(r.revision, r.cred, r.used));
    }
  }

  lemma {:induction false} RunTraced(first: Cred, steps: seq<Step>, n: nat)
    requires n <= |steps|
    ensures Traced(first, steps, n, Run(Created(first), steps[..n]))
    decreases n
  {
    if n > 0 {
      var s := Run(Created(first), steps[..n - 1]);
      RunTraced(first, steps, n - 1);
      RunStep(Created(first), steps, n - 1);
      RunKeepsFresh(first, steps[..n - 1]);
      var t := Next(s, steps[n - 1]);
      forall req | req in t.requests && t.requests[req].Probed?
        ensures RestsOnProbe(first, steps, n, req, t.requests[req])
      {
        StepTracesRequest(first, steps, n - 1, s, req);
      }
      forall k | 0 <= k < |t.commits|
        ensures CommitRests(first, steps, n, t.commits[k])
      {
        StepTracesCommit(first, steps, n - 1, s, k);
      }
    }
  }

  /** A client that another credential's probe left under the same revision is still cached. */
  ghost predicate LeftOver(first: Cred, steps: seq<Step>, p: nat, c: Commit) {
    exists q: nat, other: Cred :: q < p && other != c.cred && CachedSince(first, steps, q, p, c.revision, other)
  }

  /** The credential a rotation commits is the one it probed exactly when, at its probe, no client
      was still cached that an earlier rotation with another credential had probed under the same
      revision. */
  lemma CommittedIsProbedExactly(first: Cred, steps: seq<Step>, k: nat) returns (req: nat, p: nat)
    requires k < |Run(Created(first), steps).commits|
    ensures var c := Run(Created(first), steps).commits[k];
            ProbesAt(first, steps, p, req, c) && (c.used == c.cred <==> !LeftOver(first, steps, p, c))
  {
    assert steps[..|steps|] == steps;
    RunTraced(first, steps, |steps|);
    var c := Run(Created(first), steps).commits[k];
    assert CommitRests(first, steps, |steps|, c);
    req, p :| p < |steps| && FreshProbe(first, steps, p, req, c);
    UsedExactly(first, steps, p, req, c);
  }

  lemma UsedExactly(first: Cred, steps: seq<Step>, p: nat, req: nat, c: Commit)
    requires FreshProbe(first, steps, p, req, c)
    ensures c.used == c.cred <==> !LeftOver(first, steps, p, c)
  {
    if c.used != c.cred {
      var q := CacheOrigin(first, steps, p, Entry(c.revision, c.used));
      assert CachedSince(first, steps, q, p, c.revision, c.used);
    }
    if q: nat, other: Cred :| q < p && other != c.cred && CachedSince(first, steps, q, p, c.revision, other) {
      assert CacheAt(first, steps, p) == Some(Entry(c.revision, other));
    }
  }

  /** A committed rotation that goes on to invalidate the cache leaves nothing cached, so the next
      call under the new revision builds its own client. */
  lemma InvalidateClears(s: State, req: nat, locator: Entry)
    requires req in s.requests && s.requests[req].Committed? && locator in s.locators
    ensures var t := Next(s, Invalidate(req));
            t.cache == None && Next(t, Use(locator, true)).cache == Some(locator)
  {
  }

  // ---- A rotation that commits a credential nobody probed ----

  lemma Extend(steps: seq<Step>, a: Step, s: State, t: State) returns (longer: seq<Step>)
    requires Run(Created(0), steps) == s && Next(s, a) == t
    ensures Run(Created(0), longer) == t
  {
    longer := steps + [a];
    assert longer[..|longer| - 1] == steps;
  }

  /** The first rotation probes credential 7 and loses its compare-and-set. Its client stays. */
  lemma FailedRotation() returns (steps: seq<Step>)
    ensures Run(Created(0), steps) == Created(0).(cache := Some(Entry(2, 7)))
  {
    var s0 := Created(0);
    var s1 := s0.(requests := map[1 := Loaded(1, 2, 7)]);
    steps := Extend([], Load(1, 7), s0, s1);
    var s2 := s0.(taken := {1, 2}, requests := map[1 := Stored(1, 2, 7)]);
    steps := Extend(steps, Put(1, true), s1, s2);
    var s3 := s2.(cache := Some(Entry(2, 7)), requests := map[1 := Probed(1, 2, 7, 7)]);
    steps := Extend(steps, Probe(1, true, true), s2, s3);
    var s4 := s3.(requests := map[1 := Undoing(2)]);
    steps := Extend(steps, Cas(1, false), s3, s4);
    steps := Extend(steps, Undo(1, true), s4, s0.(cache := Some(Entry(2, 7))));
  }

  /** The next rotation stores credential 8 under the same revision, its probe hits the cached
      client of credential 7, and credential 8 goes into use. */
  lemma UnprobedCommit() returns (steps: seq<Step>)
    ensures Run(Created(0), steps).commits == [Commit(2, 8, 7)]
  {
    steps := FailedRotation();
    var s0 := Created(0).(cache := Some(Entry(2, 7)));
    var s1 := s0.(requests := map[2 := Loaded(1, 2, 8)]);
    steps := Extend(steps, Load(2, 8), s0, s1);
    var s2 := s0.(taken := {1, 2}, requests := map[2 := Stored(1, 2, 8)]);
    steps := Extend(steps, Put(2, true), s1, s2);
    var s3 := s2.(requests := map[2 := Probed(1, 2, 8, 7)]);
    steps := Extend(steps, Probe(2, false, true), s2, s3);
    steps := Extend(steps, Cas(2, true), s3, Next(s3, Cas(2, true)));
  }
}
