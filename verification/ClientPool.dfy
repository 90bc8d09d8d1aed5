/** The client cache of internal/data/kubernetes_client_pool.go: a map from cluster to the last
    built client and its credential revision, with builds for the same cluster and revision
    shared through singleflight. Every load, store, delete and build is one step, so a run is
    any interleaving of any number of callers. */
module ClientPool {
  import opened Order

  type Credential = string

  /** A client remembers what it was built from; building is otherwise a function. */
  datatype Client = Client(cluster: string, cred: Credential)

  /** A call of getOrBuild. `cred` is the credential its locator stands for: the one the caller
      passes in, or the one the store returns for the locator. */
  datatype Call = Call(cluster: string, revision: int, cred: Credential)

  /** What building directly from the credential would return. */
  function Direct(c: Call): Client {
    Client(c.cluster, c.cred)
  }

  datatype CacheEntry = CacheEntry(client: Client, revision: int)

  datatype Key = Key(cluster: string, revision: int)

  function KeyOf(c: Call): Key {
    Key(c.cluster, c.revision)
  }

  /** A shared build: the leader's call, and how far it has come. */
  datatype Flight =
    | Checking(leader: Call)
    | Building(leader: Call)
    | Storing(leader: Call, client: Client)
    | Done(leader: Call, client: Client)
    | Failed(leader: Call)

  datatype Phase = Started | Waiting | Returned(client: Client) | Errored

  datatype Caller = Caller(call: Call, phase: Phase)

  datatype State = State(clients: map<string, CacheEntry>, inflight: map<Key, Flight>, callers: map<nat, Caller>)

  const EMPTY := State(map[], map[], map[])

  datatype Step =
    | Enter(id: nat, call: Call)
    | FirstLoad(id: nat)
    | SecondLoad(key: Key)
    | Build(key: Key, ok: bool)
    | StoreClient(key: Key)
    | Deliver(key: Key)
    | Invalidate(cluster: string)

  function Cached(s: State, c: Call): Option<Client> {
    if c.cluster in s.clients && s.clients[c.cluster].revision == c.revision
    then Some(s.clients[c.cluster].client) else None
  }

  function Fly(s: State, key: Key, f: Flight): State {
    s.(inflight := s.inflight[key := f])
  }

  function Next(s: State, a: Step): State {
    match a
    case Enter(id, call) =>
      if id in s.callers then s else s.(callers := s.callers[id := Caller(call, Started)])
    case FirstLoad(id) =>
      if id !in s.callers || s.callers[id].phase != Started then s
      else
        var call := s.callers[id].call;
        var hit := Cached(s, call);
        if hit.Some? then s.(callers := s.callers[id := Caller(call, Returned(hit.value))])
        else
          var joined := s.(callers := s.callers[id := Caller(call, Waiting)]);
          if KeyOf(call) in s.inflight then joined else Fly(joined, KeyOf(call), Checking(call))
    case SecondLoad(key) =>
      if key !in s.inflight || !s.inflight[key].Checking? then s
      else
        var leader := s.inflight[key].leader;
        var hit := Cached(s, leader);
        Fly(s, key, if hit.Some? then Done(leader, hit.value) else Building(leader))
    case Build(key, ok) =>
      if key !in s.inflight || !s.inflight[key].Building? then s
      else
        var leader := s.inflight[key].leader;
        Fly(s, key, if ok then Storing(leader, Direct(leader)) else Failed(leader))
    case StoreClient(key) =>
      if key !in s.inflight || !s.inflight[key].Storing? then s
      else
        var f := s.inflight[key];
        Fly(s.(clients := s.clients[key.cluster := CacheEntry(f.client, key.revision)]), key, Done(f.leader, f.client))
    case Deliver(key) =>
      if key !in s.inflight || !(s.inflight[key].Done? || s.inflight[key].Failed?) then s
      else
        var f := s.inflight[key];
        var outcome := if f.Done? then Returned(f.client) else Errored;
        s.(inflight := s.inflight - {key},
           callers := map id | id in s.callers ::
             if s.callers[id].phase == Waiting && KeyOf(s.callers[id].call) == key
             then Caller(s.callers[id].call, outcome) else s.callers[id])
    case Invalidate(cluster) =>
      s.(clients := s.clients - {cluster})
  }

  function Run(s: State, steps: seq<Step>): State
    decreases |steps|
  {
    if steps == [] then s else Next(Run(s, steps[..|steps| - 1]), steps[|steps| - 1])
  }

  /** The run makes only calls from the given set. */
  ghost predicate Uses(steps: seq<Step>, calls: set<Call>) {
    forall a :: a in steps && a.Enter? ==> a.call in calls
  }

  /** Each cluster and revision names one credential. */
  ghost predicate OneCredential(calls: set<Call>) {
    forall c, d :: c in calls && d in calls && KeyOf(c) == KeyOf(d) ==> c.cred == d.cred
  }

  /** Every caller that got a client got the one its own credential builds. */
  ghost predicate AllDirect(s: State) {
    forall id :: id in s.callers && s.callers[id].phase.Returned? ==>
      s.callers[id].phase.client == Direct(s.callers[id].call)
  }

  // ---- One credential per revision is enough ----

  /** A client some call for this key would have built. */
  ghost predicate Built(calls: set<Call>, key: Key, client: Client) {
    exists c :: c in calls && KeyOf(c) == key && client == Direct(c)
  }

  ghost predicate Inv(s: State, calls: set<Call>) {
    (forall cluster :: cluster in s.clients ==>
       Built(calls, Key(cluster, s.clients[cluster].revision), s.clients[cluster].client)) &&
    (forall key :: key in s.inflight ==>
       s.inflight[key].leader in calls && KeyOf(s.inflight[key].leader) == key &&
       (s.inflight[key].Storing? || s.inflight[key].Done? ==> Built(calls, key, s.inflight[key].client))) &&
    (forall id :: id in s.callers ==>
       s.callers[id].call in calls &&
       (s.callers[id].phase.Returned? ==> Built(calls, KeyOf(s.callers[id].call), s.callers[id].phase.client)))
  }

  lemma StepKeepsInv(s: State, a: Step, calls: set<Call>)
    requires Inv(s, calls) && (a.Enter? ==> a.call in calls)
    ensures Inv(Next(s, a), calls)
  {
    if a.Build? && a.key in s.inflight {
      assert Built(calls, a.key, Direct(s.inflight[a.key].leader));
    }
  }

  lemma {:induction false} RunKeepsInv(steps: seq<Step>, calls: set<Call>)
    requires Uses(steps, calls)
    ensures Inv(Run(EMPTY, steps), calls)
    decreases |steps|
  {
    if steps != [] {
      RunKeepsInv(steps[..|steps| - 1], calls);
      StepKeepsInv(Run(EMPTY, steps[..|steps| - 1]), steps[|steps| - 1], calls);
    }
  }

  lemma CacheRefinesDirectBuild(steps: seq<Step>, calls: set<Call>)
    requires Uses(steps, calls) && OneCredential(calls)
    ensures AllDirect(Run(EMPTY, steps))
  {
    RunKeepsInv(steps, calls);
  }

  // ---- ... and necessary ----

  /** A first call that builds and caches its client, then a second that finds it. */
  function StaleHit(c: Call, d: Call): seq<Step> {
    [Enter(0, c), FirstLoad(0), SecondLoad(KeyOf(c)), Build(KeyOf(c), true), StoreClient(KeyOf(c)),
     Deliver(KeyOf(c)), Enter(1, d), FirstLoad(1)]
  }

  lemma RunPrefix(s: State, steps: seq<Step>, i: nat)
    requires i < |steps|
    ensures Run(s, steps[..i + 1]) == Next(Run(s, steps[..i]), steps[i])
  {
    assert steps[..i + 1][..i] == steps[..i];
  }

  /** The first call joins its own flight. */
  lemma LeaderTakesOff(c: Call, d: Call)
    ensures Run(EMPTY, StaleHit(c, d)[..2]) == State(map[], map[KeyOf(c) := Checking(c)], map[0 := Caller(c, Waiting)])
  {
    RunPrefix(EMPTY, StaleHit(c, d), 0);
    RunPrefix(EMPTY, StaleHit(c, d), 1);
  }

  /** It finds nothing cached and builds. */
  lemma LeaderBuilds(c: Call, d: Call)
    ensures Run(EMPTY, StaleHit(c, d)[..4]) ==
            State(map[], map[KeyOf(c) := Storing(c, Direct(c))], map[0 := Caller(c, Waiting)])
  {
    LeaderTakesOff(c, d);
    RunPrefix(EMPTY, StaleHit(c, d), 2);
    assert Run(EMPTY, StaleHit(c, d)[..3]).callers == map[0 := Caller(c, Waiting)];
    RunPrefix(EMPTY, StaleHit(c, d), 3);
  }

  /** It stores the client and returns it. */
  lemma LeaderLands(c: Call, d: Call)
    ensures Run(EMPTY, StaleHit(c, d)[..6]) ==
            State(map[c.cluster := CacheEntry(Direct(c), c.revision)], map[], map[0 := Caller(c, Returned(Direct(c)))])
  {
    LeaderBuilds(c, d);
    RunPrefix(EMPTY, StaleHit(c, d), 4);
    var stored := map[c.cluster := CacheEntry(Direct(c), c.revision)];
    assert Run(EMPTY, StaleHit(c, d)[..5]) ==
           State(stored, map[KeyOf(c) := Done(c, Direct(c))], map[0 := Caller(c, Waiting)]);
    RunPrefix(EMPTY, StaleHit(c, d), 5);
    assert Run(EMPTY, StaleHit(c, d)[..6]).callers == map[0 := Caller(c, Returned(Direct(c)))];
  }

  lemma StaleHitReturnsFirstClient(c: Call, d: Call)
    requires KeyOf(c) == KeyOf(d)
    ensures var s := Run(EMPTY, StaleHit(c, d));
            1 in s.callers && s.callers[1] == Caller(d, Returned(Direct(c)))
  {
    var all := StaleHit(c, d);
    LeaderLands(c, d);
    RunPrefix(EMPTY, all, 6);
    RunPrefix(EMPTY, all, 7);
    assert all[..8] == all;
  }

  /** The cached client is the directly built one in every interleaving exactly when each
      cluster and revision names one credential. Two credentials under one revision are enough
      for a caller to be handed the client of the other one: this is what a retried rotation
      meets after a failed one, since both use the next revision and the failed one does not
      invalidate the cache. */
  lemma CacheRefinesExactly(calls: set<Call>)
    ensures (forall steps :: Uses(steps, calls) ==> AllDirect(Run(EMPTY, steps))) <==> OneCredential(calls)
  {
    if OneCredential(calls) {
      forall steps | Uses(steps, calls)
        ensures AllDirect(Run(EMPTY, steps))
      {
        CacheRefinesDirectBuild(steps, calls);
      }
    } else {
      var c, d :| c in calls && d in calls && KeyOf(c) == KeyOf(d) && c.cred != d.cred;
      StaleHitReturnsFirstClient(c, d);
      assert Uses(StaleHit(c, d), calls) && !AllDirect(Run(EMPTY, StaleHit(c, d)));
    }
  }

  // ---- Nobody waits in vain ----

  /** Every waiting caller waits for a build that is under way. */
  ghost predicate NoneStranded(s: State) {
    forall id :: id in s.callers && s.callers[id].phase == Waiting ==> KeyOf(s.callers[id].call) in s.inflight
  }

  lemma StepStrandsNone(s: State, a: Step)
    requires NoneStranded(s)
    ensures NoneStranded(Next(s, a))
  {
    var t := Next(s, a);
    forall id | id in t.callers && t.callers[id].phase == Waiting
      ensures KeyOf(t.callers[id].call) in t.inflight
    {
      assert id in s.callers && s.callers[id].phase == Waiting ==> KeyOf(s.callers[id].call) in s.inflight;
    }
  }

  /** In every run a waiting caller waits for a build that is under way. */
  lemma {:induction false} WaitersHaveAFlight(steps: seq<Step>)
    ensures NoneStranded(Run(EMPTY, steps))
    decreases |steps|
  {
    if steps != [] {
      WaitersHaveAFlight(steps[..|steps| - 1]);
      StepStrandsNone(Run(EMPTY, steps[..|steps| - 1]), steps[|steps| - 1]);
    }
  }

  /** The next step of a build, when building succeeds. */
  function Onward(f: Flight, key: Key): Step {
    match f
    case Checking(_) => SecondLoad(key)
    case Building(_) => Build(key, true)
    case Storing(_, _) => StoreClient(key)
    case Done(_, _) => Deliver(key)
    case Failed(_) => Deliver(key)
  }

  function Stage(f: Flight): nat {
    match f
    case Checking(_) => 3
    case Building(_) => 2
    case Storing(_, _) => 1
    case Done(_, _) => 0
    case Failed(_) => 0
  }

  ghost predicate Waits(s: State, id: nat, call: Call) {
    id in s.callers && s.callers[id] == Caller(call, Waiting) && KeyOf(call) in s.inflight
  }

  ghost predicate Answered(s: State, id: nat, call: Call) {
    id in s.callers && s.callers[id].call == call && (s.callers[id].phase.Returned? || s.callers[id].phase.Errored?)
  }

  lemma FlightGoesOn(s: State, id: nat, call: Call)
    requires Waits(s, id, call)
    ensures var t := Next(s, Onward(s.inflight[KeyOf(call)], KeyOf(call)));
            Answered(t, id, call) ||
            (Waits(t, id, call) && Stage(t.inflight[KeyOf(call)]) < Stage(s.inflight[KeyOf(call)]))
  {
  }

  lemma RunCons(s: State, a: Step, steps: seq<Step>)
    ensures Run(s, [a] + steps) == Run(Next(s, a), steps)
    decreases |steps|
  {
    if steps == [] {
      assert [a] + steps == [a] && [a][..0] == [];
    } else {
      var init := steps[..|steps| - 1];
      assert ([a] + steps)[..|steps|] == [a] + init;
      RunCons(s, a, init);
    }
  }

  /** From every state of every run a waiting caller is answered by the steps its build has left, at
      most four, whatever the others do not do. */
  lemma {:induction false} WaiterIsAnswered(s: State, id: nat, call: Call) returns (more: seq<Step>)
    requires Waits(s, id, call)
    ensures |more| <= Stage(s.inflight[KeyOf(call)]) + 1 && Answered(Run(s, more), id, call)
    decreases Stage(s.inflight[KeyOf(call)])
  {
    var a := Onward(s.inflight[KeyOf(call)], KeyOf(call));
    FlightGoesOn(s, id, call);
    var t := Next(s, a);
    if Answered(t, id, call) {
      more := [a];
      RunCons(s, a, []);
      assert [a] + [] == [a];
    } else {
      more := WaiterIsAnswered(t, id, call);
      RunCons(s, a, more);
      more := [a] + more;
    }
  }

  /** After an invalidation no call for the cluster finds a client until one is stored again. */
  lemma {:induction false} InvalidatedMisses(s: State, cluster: string, more: seq<Step>, c: Call)
    requires c.cluster == cluster && forall a :: a in more && a.StoreClient? ==> a.key.cluster != cluster
    ensures Cached(Run(Next(s, Invalidate(cluster)), more), c) == None
    ensures cluster !in Run(Next(s, Invalidate(cluster)), more).clients
    decreases |more|
  {
    if more != [] {
      InvalidatedMisses(s, cluster, more[..|more| - 1], c);
      assert more[|more| - 1] in more;
    }
  }
}
