/** What the retry count of an outbox row says over whole runs. The code of
    internal/data/kubernetes_outbox.go reads the count and writes it back in two calls, so Naks of
    workers whose leases overlap can interleave. */
module OutboxRetries {
  import opened Order
  import opened Outbox

  ghost predicate Counted(s: State) {
    |s.naks| == |s.rows| &&
    (forall id :: 0 <= id < |s.rows| ==> s.rows[id].retryCount <= s.naks[id]) &&
    (forall key :: key in s.holders ==>
       key.id < |s.rows| && key.claim < s.claims &&
       (s.holders[key].Naking? ==> s.holders[key].loaded <= s.naks[key.id]))
  }

  lemma StepKeepsCounted(s: State, a: Step)
    requires Counted(s)
    ensures Counted(Next(s, a))
  {
    if a.Claim? {
      SelectedSpec(s.rows, s.now, a.filter, ClaimLimit(a.limit), 0);
    }
  }

  /** In every run the retry count never exceeds the number of Naks of the row. */
  lemma {:induction false} RetryNeverOvercounts(steps: seq<Step>)
    ensures Counted(Run(steps))
    decreases |steps|
  {
    if steps != [] {
      RetryNeverOvercounts(steps[..|steps| - 1]);
      StepKeepsCounted(Run(steps[..|steps| - 1]), steps[|steps| - 1]);
    }
  }

  // ---- Exactly when the count is right ----

  ghost predicate NaksAt(steps: seq<Step>, k: nat, id: nat) {
    k < |steps| && Naks(Run(steps[..k]), steps[k], id)
  }

  ghost predicate LoadsAt(steps: seq<Step>, l: nat, key: Key) {
    l < |steps| && Loads(Run(steps[..l]), steps[l], key)
  }

  /** Another Nak of the row came between the read and the write of a Nak. */
  ghost predicate Interleaved(steps: seq<Step>, id: nat) {
    exists l: nat, m: nat, k: nat :: l < m < k && Interrupts(steps, id, l, m, k)
  }

  ghost predicate Interrupts(steps: seq<Step>, id: nat, l: nat, m: nat, k: nat) {
    NaksAt(steps, k, id) && LoadsAt(steps, l, steps[k].key) && NaksAt(steps, m, id)
  }

  /** The step is a Nak that was read before an earlier Nak of the row was written. */
  ghost predicate Stale(s: State, a: Step, id: nat) {
    Naks(s, a, id) && (id >= |s.naks| || s.holders[a.key].seen != s.naks[id])
  }

  /** No Nak of the row was stale. */
  ghost predicate Clean(steps: seq<Step>, id: nat)
    decreases |steps|
  {
    steps != [] ==>
      Clean(steps[..|steps| - 1], id) && !Stale(Run(steps[..|steps| - 1]), steps[|steps| - 1], id)
  }

  ghost predicate StaleAt(steps: seq<Step>, k: nat, id: nat) {
    k < |steps| && Stale(Run(steps[..k]), steps[k], id)
  }

  /** A row no stale Nak has touched counts its Naks, and so does every read of it. A row one has
      touched is behind for good, and so is every read of it. */
  ghost predicate Tracked(s: State, id: nat, clean: bool) {
    Counted(s) &&
    if id >= |s.rows| then clean
    else if clean then s.rows[id].retryCount == s.naks[id] && forall key :: key in s.holders ==> ReadIsCount(s, key, id)
    else s.rows[id].retryCount < s.naks[id] && forall key :: key in s.holders ==> ReadIsBehind(s, key, id)
  }

  ghost predicate ReadIsCount(s: State, key: Key, id: nat)
    requires key in s.holders && id < |s.naks|
  {
    key.id == id && s.holders[key].Naking? ==> s.holders[key].loaded == s.holders[key].seen <= s.naks[id]
  }

  ghost predicate ReadIsBehind(s: State, key: Key, id: nat)
    requires key in s.holders && id < |s.naks|
  {
    key.id == id && s.holders[key].Naking? ==> s.holders[key].loaded < s.naks[id]
  }

  lemma WriteTracks(s: State, a: Step, id: nat, clean: bool)
    requires Tracked(s, id, clean) && a.NakWrite? && Counted(Next(s, a))
    ensures Tracked(Next(s, a), id, clean && !Stale(s, a, id))
  {
    if a.key in s.holders && id < |s.rows| {
      assert if clean then ReadIsCount(s, a.key, id) else ReadIsBehind(s, a.key, id);
    }
    var t := Next(s, a);
    forall key | key in t.holders && id < |s.rows|
      ensures if clean && !Stale(s, a, id) then ReadIsCount(t, key, id) else ReadIsBehind(t, key, id)
    {
      assert if clean then ReadIsCount(s, key, id) else ReadIsBehind(s, key, id);
    }
  }

  lemma OtherStepTracks(s: State, a: Step, id: nat, clean: bool)
    requires Tracked(s, id, clean) && !a.NakWrite? && Counted(Next(s, a))
    ensures Tracked(Next(s, a), id, clean)
  {
    if a.Claim? {
      SelectedSpec(s.rows, s.now, a.filter, ClaimLimit(a.limit), 0);
    }
  }

  lemma StepTracks(s: State, a: Step, t: State, id: nat, clean: bool, after: bool)
    requires Tracked(s, id, clean) && t == Next(s, a) && after == (clean && !Stale(s, a, id))
    ensures Tracked(t, id, after)
  {
    StepKeepsCounted(s, a);
    if a.NakWrite? {
      WriteTracks(s, a, id, clean);
    } else {
      OtherStepTracks(s, a, id, clean);
    }
  }

  lemma {:induction false} RunTracks(steps: seq<Step>, id: nat)
    ensures Tracked(Run(steps), id, Clean(steps, id))
    decreases |steps|
  {
    if steps != [] {
      var init := steps[..|steps| - 1];
      RunTracks(init, id);
      StepTracks(Run(init), steps[|steps| - 1], Run(steps), id, Clean(init, id), Clean(steps, id));
    }
  }

  /** A read keeps what it saw until its Nak is written, and its key is never used again. */
  ghost predicate Remembers(s: State, key: Key, seen: nat) {
    key.claim < s.claims && (key in s.holders ==> s.holders[key].Naking? && s.holders[key].seen == seen)
  }

  lemma StepRemembers(s: State, a: Step, t: State, key: Key, seen: nat)
    requires Remembers(s, key, seen) && t == Next(s, a)
    ensures Remembers(t, key, seen)
  {
  }

  lemma ReadBegins(s: State, a: Step, t: State, key: Key)
    requires Counted(s) && Loads(s, a, key) && t == Next(s, a)
    ensures key.id < |s.naks| && Remembers(t, key, s.naks[key.id])
  {
  }

  lemma {:induction false} ReadRemembers(steps: seq<Step>, l: nat, k: nat, key: Key)
    requires l < k <= |steps| && LoadsAt(steps, l, key)
    ensures key.id < |Run(steps[..l]).naks|
    ensures Remembers(Run(steps[..k]), key, Run(steps[..l]).naks[key.id])
    decreases k
  {
    RunStep(steps, k - 1);
    if l < k - 1 {
      ReadRemembers(steps, l, k - 1, key);
      StepRemembers(Run(steps[..k - 1]), steps[k - 1], Run(steps[..k]), key, Run(steps[..l]).naks[key.id]);
    } else {
      RetryNeverOvercounts(steps[..l]);
      ReadBegins(Run(steps[..l]), steps[l], Run(steps[..k]), key);
    }
  }

  /** Every Nak in the making was read somewhere. */
  lemma {:induction false} ReadExists(steps: seq<Step>, k: nat, key: Key) returns (l: nat)
    requires k <= |steps| && key in Run(steps[..k]).holders && Run(steps[..k]).holders[key].Naking?
    ensures l < k && LoadsAt(steps, l, key)
    decreases k
  {
    assert k > 0;
    RunStep(steps, k - 1);
    var s := Run(steps[..k - 1]);
    if Loads(s, steps[k - 1], key) {
      l := k - 1;
    } else {
      HolderWasThere(s, steps[k - 1], key);
      l := ReadExists(steps, k - 1, key);
    }
  }

  lemma HolderWasThere(s: State, a: Step, key: Key)
    requires key in Next(s, a).holders && Next(s, a).holders[key].Naking? && !Loads(s, a, key)
    ensures key in s.holders && s.holders[key].Naking?
  {
  }

  lemma NaksOfStep(s: State, a: Step, id: nat)
    requires Counted(s)
    ensures id < |s.naks| ==>
              id < |Next(s, a).naks| && Next(s, a).naks[id] == s.naks[id] + if Naks(s, a, id) then 1 else 0
    ensures id >= |s.naks| ==> !Naks(s, a, id) && (id < |Next(s, a).naks| ==> Next(s, a).naks[id] == 0)
  {
  }

  /** How many Naks the row had had after the first `k` steps. */
  ghost function NaksBy(steps: seq<Step>, k: nat, id: nat): nat
    requires k <= |steps|
    decreases k
  {
    if k == 0 then 0 else NaksBy(steps, k - 1, id) + if NaksAt(steps, k - 1, id) then 1 else 0
  }

  lemma {:induction false} NaksByIsCount(steps: seq<Step>, k: nat, id: nat)
    requires k <= |steps|
    ensures var s := Run(steps[..k]);
            Counted(s) && if id < |s.naks| then s.naks[id] == NaksBy(steps, k, id) else NaksBy(steps, k, id) == 0
    decreases k
  {
    RetryNeverOvercounts(steps[..k]);
    if k > 0 {
      NaksByIsCount(steps, k - 1, id);
      RunStep(steps, k - 1);
      NaksOfStep(Run(steps[..k - 1]), steps[k - 1], id);
    }
  }

  lemma {:induction false} NaksGrow(steps: seq<Step>, l: nat, k: nat, id: nat)
    requires l <= k <= |steps|
    ensures NaksBy(steps, l, id) <= NaksBy(steps, k, id)
    decreases k
  {
    if l < k {
      NaksGrow(steps, l, k - 1, id);
    }
  }

  /** Where the number of Naks has grown there was one. */
  lemma {:induction false} FindNak(steps: seq<Step>, l: nat, k: nat, id: nat) returns (m: nat)
    requires l <= k <= |steps| && NaksBy(steps, l, id) != NaksBy(steps, k, id)
    ensures l <= m < k && NaksAt(steps, m, id)
    decreases k
  {
    if NaksAt(steps, k - 1, id) {
      m := k - 1;
    } else {
      m := FindNak(steps, l, k - 1, id);
    }
  }

  lemma NakBetween(steps: seq<Step>, l: nat, m: nat, k: nat, id: nat)
    requires l <= m < k <= |steps| && NaksAt(steps, m, id)
    ensures NaksBy(steps, l, id) < NaksBy(steps, k, id)
  {
    NaksGrow(steps, l, m, id);
    NaksGrow(steps, m + 1, k, id);
  }

  /** A Nak is stale exactly when the row had had another number of Naks at its read. */
  lemma StaleMeansMoved(steps: seq<Step>, l: nat, k: nat, id: nat)
    requires NaksAt(steps, k, id) && l < k && LoadsAt(steps, l, steps[k].key)
    ensures StaleAt(steps, k, id) <==> NaksBy(steps, l, id) != NaksBy(steps, k, id)
  {
    ReadRemembers(steps, l, k, steps[k].key);
    NaksByIsCount(steps, l, id);
    NaksByIsCount(steps, k, id);
  }

  /** A Nak that another one interrupts is stale. */
  lemma InterruptedIsStale(steps: seq<Step>, id: nat, l: nat, m: nat, k: nat)
    requires l < m < k && Interrupts(steps, id, l, m, k)
    ensures StaleAt(steps, k, id)
  {
    NakBetween(steps, l, m, k, id);
    StaleMeansMoved(steps, l, k, id);
  }

  /** A stale Nak was interrupted. */
  lemma StaleWasInterrupted(steps: seq<Step>, k: nat, id: nat) returns (l: nat, m: nat)
    requires StaleAt(steps, k, id)
    ensures l < m < k && Interrupts(steps, id, l, m, k)
  {
    l := ReadExists(steps, k, steps[k].key);
    StaleMeansMoved(steps, l, k, id);
    m := FindNak(steps, l, k, id);
  }

  lemma {:induction false} CleanUpTo(steps: seq<Step>, n: nat, id: nat)
    requires n <= |steps|
    ensures Clean(steps[..n], id) <==> forall k: nat :: k < n ==> !StaleAt(steps, k, id)
    decreases n
  {
    if n > 0 {
      CleanUpTo(steps, n - 1, id);
      assert steps[..n][..n - 1] == steps[..n - 1];
      assert StaleAt(steps, n - 1, id) <==> Stale(Run(steps[..n - 1]), steps[n - 1], id);
    }
  }

  lemma CleanMeansNotInterleaved(steps: seq<Step>, id: nat)
    ensures Clean(steps, id) <==> !Interleaved(steps, id)
  {
    CleanUpTo(steps, |steps|, id);
    assert steps[..|steps|] == steps;
    if k: nat :| k < |steps| && StaleAt(steps, k, id) {
      var l, m := StaleWasInterrupted(steps, k, id);
    }
    if l: nat, m: nat, k: nat :| l < m < k && Interrupts(steps, id, l, m, k) {
      InterruptedIsStale(steps, id, l, m, k);
    }
  }

  /** After any run a row's retry count is the number of its Naks exactly when no Nak of it came
      between the read and the write of another. */
  lemma RetryCountsExactly(steps: seq<Step>, id: nat)
    requires id < |Run(steps).rows|
    ensures id < |Run(steps).naks|
    ensures Run(steps).rows[id].retryCount == Run(steps).naks[id] <==> !Interleaved(steps, id)
  {
    RunTracks(steps, id);
    CleanMeansNotInterleaved(steps, id);
  }

  // ---- When a row fails ----

  ghost predicate OneLimit(steps: seq<Step>, maxRetries: int) {
    forall a :: a in steps && a.NakLoad? ==> a.maxRetries == maxRetries
  }

  /** The row is failed exactly when its count has passed the limit; a Nak that read such a count
      comes too late to change the row. */
  ghost predicate FailsOnTime(s: State, maxRetries: int, id: nat) {
    (forall key :: key in s.holders && s.holders[key].Naking? ==>
       s.holders[key].maxRetries == maxRetries &&
       (key.id == id ==>
          id < |s.rows| && (s.holders[key].loaded <= RetryLimit(maxRetries) || s.rows[id].status == Failed))) &&
    (id < |s.rows| ==>
       s.rows[id].retryCount <= RetryLimit(maxRetries) + 1 &&
       (s.rows[id].status == Failed <==> s.rows[id].retryCount == RetryLimit(maxRetries) + 1))
  }

  lemma StepFailsOnTime(s: State, a: Step, maxRetries: int, id: nat)
    requires FailsOnTime(s, maxRetries, id) && (a.NakLoad? ==> a.maxRetries == maxRetries)
    ensures FailsOnTime(Next(s, a), maxRetries, id)
  {
    if a.Claim? {
      SelectedSpec(s.rows, s.now, a.filter, ClaimLimit(a.limit), 0);
    }
  }

  lemma {:induction false} RunFailsOnTime(steps: seq<Step>, maxRetries: int, id: nat)
    requires OneLimit(steps, maxRetries)
    ensures FailsOnTime(Run(steps), maxRetries, id)
    decreases |steps|
  {
    if steps != [] {
      var init, a := steps[..|steps| - 1], steps[|steps| - 1];
      assert a in steps;
      RunFailsOnTime(init, maxRetries, id);
      StepFailsOnTime(Run(init), a, maxRetries, id);
    }
  }

  /** With one retry limit, in every run, interleaved Naks included: a row is failed exactly when
      its stored count is one past the limit, and it then had more Naks than the limit. */
  lemma FailedIsExhausted(steps: seq<Step>, maxRetries: int, id: nat)
    requires OneLimit(steps, maxRetries) && id < |Run(steps).rows|
    ensures var row, limit := Run(steps).rows[id], if maxRetries < 1 then 5 else maxRetries;
            row.retryCount <= limit + 1 && (row.status == Failed <==> row.retryCount == limit + 1) &&
            id < |Run(steps).naks| && (row.status == Failed ==> Run(steps).naks[id] > limit)
  {
    RunFailsOnTime(steps, maxRetries, id);
    RetryNeverOvercounts(steps);
  }

  /** With one retry limit, a row whose Naks do not interleave is failed exactly after the Nak that
      follows its last allowed retry. */
  lemma RowFailsExactly(steps: seq<Step>, maxRetries: int, id: nat)
    requires OneLimit(steps, maxRetries) && !Interleaved(steps, id) && id < |Run(steps).rows|
    ensures var limit := if maxRetries < 1 then 5 else maxRetries;
            id < |Run(steps).naks| && Run(steps).naks[id] <= limit + 1 &&
            (Run(steps).rows[id].status == Failed <==> Run(steps).naks[id] == limit + 1)
  {
    CleanMeansNotInterleaved(steps, id);
    RunTracks(steps, id);
    FailedIsExhausted(steps, maxRetries, id);
  }

  // ---- Answers within the lease ----

  /** The step answers for a row only while its own claim's lease lasts. */
  predicate InTime(s: State, a: Step) {
    (a.Ack? || a.NakWrite?) && a.key in s.holders ==> s.now < s.holders[a.key].until
  }

  ghost predicate Timely(steps: seq<Step>)
    decreases |steps|
  {
    steps != [] ==> Timely(steps[..|steps| - 1]) && InTime(Run(steps[..|steps| - 1]), steps[|steps| - 1])
  }

  ghost predicate Holds(s: State, key: Key) {
    key in s.holders && s.now < s.holders[key].until
  }

  /** An unexpired holder owns its row: the row carries its lease, its read is current, and no
      other unexpired holder has the row. */
  ghost predicate Owns(s: State, key: Key) {
    key in s.holders && key.id < |s.rows| &&
    s.rows[key.id].status == InProgress && s.rows[key.id].nextRetryAt == s.holders[key].until &&
    (s.holders[key].Naking? ==> s.holders[key].loaded == s.rows[key.id].retryCount)
  }

  ghost predicate Exclusive(s: State) {
    (forall key :: Holds(s, key) ==> Owns(s, key)) &&
    (forall k, l :: Holds(s, k) && Holds(s, l) && k.id == l.id ==> k == l)
  }

  ghost predicate Exact(s: State) {
    Counted(s) && forall id :: 0 <= id < |s.rows| ==> s.rows[id].retryCount == s.naks[id]
  }

  lemma ClaimKeepsExclusive(s: State, a: Step)
    requires Counted(s) && Exclusive(s) && a.Claim?
    ensures Exclusive(Next(s, a))
  {
    var t := Next(s, a);
    SelectedSpec(s.rows, s.now, a.filter, ClaimLimit(a.limit), 0);
    forall key | Holds(t, key)
      ensures Owns(t, key) && (key.id in Taken(s, a) ==> key.claim == s.claims)
    {
      assert key.claim != s.claims ==> Holds(s, key);
    }
  }

  lemma StepKeepsExclusive(s: State, a: Step)
    requires Counted(s) && Exclusive(s) && InTime(s, a)
    ensures Exclusive(Next(s, a))
  {
    if a.Claim? {
      ClaimKeepsExclusive(s, a);
    } else {
      var t := Next(s, a);
      forall key | Holds(t, key)
        ensures Holds(s, key) && Owns(t, key)
      {
        assert Holds(s, key);
        assert (a.Ack? || a.NakWrite?) && a.key in s.holders ==> Holds(s, a.key);
      }
    }
  }

  /** When every answer comes within its lease, at most one worker holds a row at a time and the
      retry count is exactly the number of Naks. */
  lemma {:induction false} TimelyWorkersAreExclusive(steps: seq<Step>)
    requires Timely(steps)
    ensures Exclusive(Run(steps)) && Exact(Run(steps))
    decreases |steps|
  {
    if steps != [] {
      var init, a := steps[..|steps| - 1], steps[|steps| - 1];
      TimelyWorkersAreExclusive(init);
      StepKeepsExclusive(Run(init), a);
      RetryNeverOvercounts(steps);
      StepKeepsExact(Run(init), a);
    }
  }

  lemma StepKeepsExact(s: State, a: Step)
    requires Exclusive(s) && Exact(s) && InTime(s, a) && Counted(Next(s, a))
    ensures Exact(Next(s, a))
  {
    if a.NakWrite? && a.key in s.holders {
      assert Holds(s, a.key);
    }
  }

  /** Answers within their leases never interleave. */
  lemma TimelyNeverInterleaves(steps: seq<Step>, id: nat)
    requires Timely(steps) && id < |Run(steps).rows|
    ensures !Interleaved(steps, id)
  {
    TimelyWorkersAreExclusive(steps);
    RetryCountsExactly(steps, id);
  }

  /** An acknowledgement within the lease settles the row: it is done from then on and no worker
      gets it again. */
  lemma AckSettles(steps: seq<Step>, i: nat, j: nat, key: Key)
    requires i < j <= |steps| && Timely(steps[..i]) && steps[i] == Ack(key)
    requires Holds(Run(steps[..i]), key) && Run(steps[..i]).holders[key].Working?
    ensures key.id < |Run(steps[..j]).rows| && Run(steps[..j]).rows[key.id].status == Done
    ensures j < |steps| ==> !Claims(Run(steps[..j]), steps[j], key.id)
  {
    TimelyWorkersAreExclusive(steps[..i]);
    RunStep(steps, i);
    assert Owns(Run(steps[..i]), key);
    TerminalIsFinal(steps, i + 1, j, key.id);
  }

  // ---- A run that undercounts ----

  lemma Extend(steps: seq<Step>, a: Step, s: State, t: State) returns (longer: seq<Step>)
    requires Run(steps) == s && Next(s, a) == t
    ensures Run(longer) == t
  {
    longer := steps + [a];
    assert longer[..|longer| - 1] == steps;
  }

  const ANY := Filter(None, {})
  const BUSY := Row("e", InProgress, 0, 0)
  const WAITING := Row("e", Pending, 0, 0)

  lemma ClaimOnlyRow(s: State, row: Row)
    requires s.rows == [row] && row.status == Pending && row.nextRetryAt <= s.now
    ensures Next(s, Claim(ANY, 16, 0)) ==
            State([row.(status := InProgress, nextRetryAt := s.now)], s.now, s.claims + 1,
                  s.holders[Key(s.claims, 0) := Working(s.now)], s.naks)
  {
    assert Selected([row], s.now, ANY, 16, 0) == [0];
    assert MarkClaimed([row], [0], s.now) == [row.(status := InProgress, nextRetryAt := s.now)];
    assert NewHolders(s.claims, [0], s.now) == map[Key(s.claims, 0) := Working(s.now)];
    assert s.holders + map[Key(s.claims, 0) := Working(s.now)] == s.holders[Key(s.claims, 0) := Working(s.now)];
  }

  /** A claim of the only row, which is due. */
  lemma ClaimRun(start: seq<Step>, s: State, row: Row) returns (steps: seq<Step>)
    requires Run(start) == s && s.rows == [row] && row.status == Pending && row.nextRetryAt <= s.now
    ensures Run(steps) == State([row.(status := InProgress, nextRetryAt := s.now)], s.now, s.claims + 1,
                                s.holders[Key(s.claims, 0) := Working(s.now)], s.naks)
  {
    ClaimOnlyRow(s, row);
    steps := Extend(start, Claim(ANY, 16, 0), s, Next(s, Claim(ANY, 16, 0)));
  }

  lemma RequeuedRun() returns (steps: seq<Step>)
    ensures Run(steps) == State([WAITING], 0, 1, map[Key(0, 0) := Working(0)], [0])
  {
    var s1 := State([WAITING], 0, 0, map[], [0]);
    steps := Extend([], Enqueue("e"), EMPTY, s1);
    steps := ClaimRun(steps, s1, WAITING);
    var s2 := State([BUSY], 0, 1, map[Key(0, 0) := Working(0)], [0]);
    assert Requeued([BUSY], 0) == [WAITING];
    steps := Extend(steps, RequeueStuck, s2, s2.(rows := [WAITING]));
  }

  lemma TwoHoldersRun() returns (steps: seq<Step>)
    ensures Run(steps) == State([BUSY], 0, 2, map[Key(0, 0) := Working(0), Key(1, 0) := Working(0)], [0])
  {
    steps := RequeuedRun();
    steps := ClaimRun(steps, State([WAITING], 0, 1, map[Key(0, 0) := Working(0)], [0]), WAITING);
  }

  lemma TwoReadersRun() returns (steps: seq<Step>)
    ensures var nak := Naking(0, 0, 5, 5 * SECOND, 0, 0);
            Run(steps) == State([BUSY], 0, 2, map[Key(0, 0) := nak, Key(1, 0) := nak], [0])
  {
    steps := TwoHoldersRun();
    var s0 := State([BUSY], 0, 2, map[Key(0, 0) := Working(0), Key(1, 0) := Working(0)], [0]);
    var nak := Naking(0, 0, 5, 5 * SECOND, 0, 0);
    var s1 := s0.(holders := map[Key(0, 0) := nak, Key(1, 0) := Working(0)]);
    steps := Extend(steps, NakLoad(Key(0, 0), 5, 5 * SECOND), s0, s1);
    steps := Extend(steps, NakLoad(Key(1, 0), 5, 5 * SECOND), s1,
                    s0.(holders := map[Key(0, 0) := nak, Key(1, 0) := nak]));
  }

  /** Two workers that answer after their leases can Nak one row twice and count it once. */
  lemma LateNakUndercounts() returns (steps: seq<Step>)
    ensures Run(steps).rows == [Row("e", Pending, 1, 10 * SECOND)] && Run(steps).naks == [2]
  {
    steps := TwoReadersRun();
    var nak := Naking(0, 0, 5, 5 * SECOND, 0, 0);
    var s2 := State([BUSY], 0, 2, map[Key(0, 0) := nak, Key(1, 0) := nak], [0]);
    var again := Row("e", Pending, 1, 10 * SECOND);
    FirstNak(BUSY);
    var s3 := State([again], 0, 2, map[Key(1, 0) := nak], [1]);
    steps := Extend(steps, NakWrite(Key(0, 0)), s2, s3);
    steps := Extend(steps, Tick(10 * SECOND), s3, s3.(now := 10 * SECOND));
    steps := LateNakLands(steps, s3.(now := 10 * SECOND), again, nak);
  }

  lemma FirstNak(row: Row)
    requires row.status == InProgress
    ensures NakRow(row, 0, 5, 5 * SECOND, 0) == row.(status := Pending, retryCount := 1, nextRetryAt := 10 * SECOND)
  {
    assert Scaled(5 * SECOND, 1) == 10 * SECOND;
  }

  lemma LateNakLands(start: seq<Step>, s: State, again: Row, nak: Holder) returns (steps: seq<Step>)
    requires again == Row("e", Pending, 1, 10 * SECOND) && nak == Naking(0, 0, 5, 5 * SECOND, 0, 0)
    requires s == State([again], 10 * SECOND, 2, map[Key(1, 0) := nak], [1]) && Run(start) == s
    ensures Run(steps).rows == [again] && Run(steps).naks == [2]
  {
    var busy := again.(status := InProgress);
    steps := ClaimRun(start, s, again);
    var t := State([busy], 10 * SECOND, 3, s.holders[Key(2, 0) := Working(10 * SECOND)], [1]);
    FirstNak(busy);
    steps := Extend(steps, NakWrite(Key(1, 0)), t, Next(t, NakWrite(Key(1, 0))));
  }
}
