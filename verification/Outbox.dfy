/** The outbox table of delayed work: internal/data/kubernetes_outbox.go and the typed claim of
    internal/data/kubernetes_outbox_worker.go.

    Times are integers in nanoseconds. A row's id is its index: rows are never deleted. */
module Outbox {
  import opened Order

  datatype Status = Pending | InProgress | Done | Failed

  datatype Row = Row(eventType: string, status: Status, retryCount: nat, nextRetryAt: int)

  const SECOND: int := 1_000_000_000
  const HOUR: int := 3600 * SECOND
  const TWO_63: int := 0x8000_0000_0000_0000
  const TWO_64: int := 0x1_0000_0000_0000_0000

  // ---- The backoff ----

  function Pow2(n: nat): (r: int)
    ensures r >= 1
  {
    if n == 0 then 1 else 2 * Pow2(n - 1)
  }

  /** An unbounded integer as the 64-bit signed value that keeps its low bits. */
  function ToInt64(x: int): (r: int)
    ensures -TWO_63 <= r < TWO_63
    ensures -TWO_63 <= x < TWO_63 ==> r == x
  {
    (x + TWO_63) % TWO_64 - TWO_63
  }

  /** `x` times two to the power of `n`, by doubling. */
  function Scaled(x: int, n: nat): int {
    if n == 0 then x else 2 * Scaled(x, n - 1)
  }

  lemma {:induction false} ScaledIsProduct(x: int, n: nat)
    ensures Scaled(x, n) == x * Pow2(n)
  {
    if n > 0 {
      ScaledIsProduct(x, n - 1);
      assert x * (2 * Pow2(n - 1)) == 2 * (x * Pow2(n - 1));
    }
  }

  function ShiftLeft(x: int, n: nat): int {
    ToInt64(Scaled(x, n))
  }

  function Min(a: int, b: int): int {
    if a < b then a else b
  }

  function Delay(base: int, retry: nat): int {
    Min(ShiftLeft(base, retry), HOUR)
  }

  /** The delay the code's comment describes. */
  function IntendedDelay(base: int, retry: nat): int {
    Min(base * Pow2(retry), HOUR)
  }

  lemma {:induction false} ScaledGrows(base: int, m: nat, n: nat)
    requires 0 < base && m <= n
    ensures base <= Scaled(base, m) <= Scaled(base, n)
    decreases n
  {
    if m < n {
      ScaledGrows(base, m, n - 1);
    } else if m > 0 {
      ScaledGrows(base, m - 1, m - 1);
    }
  }

  /** The first retry count at which the product leaves the 64-bit range. It wraps to a negative
      number there, so the cap does not catch it. */
  lemma {:induction false} FirstOverflow(base: int, limit: nat) returns (n: nat)
    requires 0 < base < TWO_63 && Scaled(base, limit) >= TWO_63
    ensures 1 <= n <= limit && Delay(base, n) < 0
    decreases limit
  {
    assert limit > 0;
    if Scaled(base, limit - 1) >= TWO_63 {
      n := FirstOverflow(base, limit - 1);
    } else {
      n := limit;
      assert ToInt64(Scaled(base, n)) == Scaled(base, n) - TWO_64;
    }
  }

  /** The delays up to a retry limit are the intended ones exactly when the last one fits 64 bits. */
  lemma BackoffExactly(base: int, limit: nat)
    requires 0 < base < TWO_63
    ensures (forall n :: 1 <= n <= limit ==> Delay(base, n) == IntendedDelay(base, n)) <==>
            base * Pow2(limit) < TWO_63
  {
    ScaledIsProduct(base, limit);
    if Scaled(base, limit) >= TWO_63 {
      var n := FirstOverflow(base, limit);
      ScaledGrows(base, n, n);
      ScaledIsProduct(base, n);
      assert Delay(base, n) != IntendedDelay(base, n);
    } else {
      forall n | 1 <= n <= limit
        ensures Delay(base, n) == IntendedDelay(base, n)
      {
        ScaledGrows(base, n, limit);
        ScaledIsProduct(base, n);
      }
    }
  }

  /** With the five seconds of the default, the delay turns negative within 31 retries. */
  lemma BackoffWraps() returns (n: nat)
    ensures 1 <= n <= 31 && Delay(5 * SECOND, n) < 0
  {
    assert Pow2(8) == 0x100;
    assert Pow2(16) == 0x1_0000;
    assert Pow2(24) == 0x100_0000;
    assert Pow2(31) == 0x8000_0000;
    ScaledIsProduct(5 * SECOND, 31);
    n := FirstOverflow(5 * SECOND, 31);
  }

  /** Within that range the delay is positive, never shrinks and never exceeds the cap. */
  lemma BackoffGrows(base: int, limit: nat, m: nat, n: nat)
    requires 0 < base && base * Pow2(limit) < TWO_63 && m <= n <= limit
    ensures 0 < Delay(base, m) <= Delay(base, n) <= HOUR
  {
    ScaledIsProduct(base, limit);
    ScaledGrows(base, m, n);
    ScaledGrows(base, n, limit);
  }

  // ---- The row updates ----

  function RetryLimit(maxRetries: int): int {
    if maxRetries < 1 then 5 else maxRetries
  }

  function BaseBackoff(base: int): int {
    if base <= 0 then 5 * SECOND else base
  }

  function ClaimLimit(limit: int): nat {
    if limit <= 0 then 16 else limit
  }

  /** `types` is None for the untyped claim. `locked` are the rows other transactions hold. */
  datatype Filter = Filter(types: Option<set<string>>, locked: set<nat>)

  predicate Claimable(row: Row, id: nat, now: int, filter: Filter) {
    row.status == Pending && row.nextRetryAt <= now && id !in filter.locked &&
    (filter.types.Some? ==> row.eventType in filter.types.value)
  }

  /** The ids a claim takes: the first `limit` claimable rows from `start` on, by id. */
  function Selected(rows: seq<Row>, now: int, filter: Filter, limit: nat, start: nat): seq<nat>
    requires start <= |rows|
    decreases |rows| - start
  {
    if start == |rows| || limit == 0 then []
    else if Claimable(rows[start], start, now, filter) then
      [start] + Selected(rows, now, filter, limit - 1, start + 1)
    else Selected(rows, now, filter, limit, start + 1)
  }

  /** A claim may take the row: it waits, its time has come, no other transaction holds it, and the
      claim's types, if it has any, include the row's. */
  ghost predicate Due(row: Row, id: nat, now: int, types: Option<set<string>>, locked: set<nat>) {
    row.status == Pending && row.nextRetryAt <= now && id !in locked &&
    (types == None || row.eventType in types.value)
  }

  /** A claim that takes `ids`: rows that are due, in id order, at most `limit`; a row that is due is
      left behind only when the claim took `limit` rows, all with smaller ids. */
  ghost predicate TakesDue(rows: seq<Row>, now: int, types: Option<set<string>>, locked: set<nat>, limit: int,
                           ids: seq<nat>) {
    |ids| <= limit &&
    (forall k :: 0 <= k < |ids| ==> ids[k] < |rows| && Due(rows[ids[k]], ids[k], now, types, locked)) &&
    (forall j, k :: 0 <= j < k < |ids| ==> ids[j] < ids[k]) &&
    (forall id :: 0 <= id < |rows| && Due(rows[id], id, now, types, locked) && id !in ids ==>
       |ids| == limit && forall k :: 0 <= k < |ids| ==> ids[k] < id)
  }

  /** The rows taken are in progress until the end of the lease; no other row changes. */
  ghost predicate Leased(before: seq<Row>, after: seq<Row>, ids: seq<nat>, until: int) {
    |after| == |before| &&
    forall i :: 0 <= i < |before| ==>
      after[i] == if i in ids then Row(before[i].eventType, InProgress, before[i].retryCount, until) else before[i]
  }

  lemma MarkedIsLeased(rows: seq<Row>, ids: seq<nat>, until: int)
    ensures Leased(rows, MarkClaimed(rows, ids, until), ids, until)
  {
  }

  lemma SelectedTakesDue(rows: seq<Row>, now: int, filter: Filter, limit: nat)
    ensures TakesDue(rows, now, filter.types, filter.locked, limit, Selected(rows, now, filter, limit, 0))
  {
    SelectedSpec(rows, now, filter, limit, 0);
    assert forall id: nat, row: Row :: Claimable(row, id, now, filter) <==>
        Due(row, id, now, filter.types, filter.locked);
  }

  /** A claim takes claimable rows only, in id order, and leaves a claimable row behind only when
      it took `limit` rows, all with smaller ids. */
  lemma {:induction false} SelectedSpec(rows: seq<Row>, now: int, filter: Filter, limit: nat, start: nat)
    requires start <= |rows|
    ensures var ids := Selected(rows, now, filter, limit, start);
            |ids| <= limit &&
            (forall k :: 0 <= k < |ids| ==> start <= ids[k] < |rows| && Claimable(rows[ids[k]], ids[k], now, filter)) &&
            (forall j, k :: 0 <= j < k < |ids| ==> ids[j] < ids[k]) &&
            (forall id :: start <= id < |rows| && Claimable(rows[id], id, now, filter) && id !in ids ==>
               |ids| == limit && forall k :: 0 <= k < |ids| ==> ids[k] < id)
    decreases |rows| - start
  {
    if start < |rows| && limit > 0 {
      if Claimable(rows[start], start, now, filter) {
        SelectedSpec(rows, now, filter, limit - 1, start + 1);
      } else {
        SelectedSpec(rows, now, filter, limit, start + 1);
      }
    }
  }

  function MarkClaimed(rows: seq<Row>, ids: seq<nat>, until: int): seq<Row> {
    seq(|rows|, i requires 0 <= i < |rows| =>
      if i in ids then rows[i].(status := InProgress, nextRetryAt := until) else rows[i])
  }

  function Requeued(rows: seq<Row>, now: int): seq<Row> {
    seq(|rows|, i requires 0 <= i < |rows| =>
      if rows[i].status == InProgress && rows[i].nextRetryAt <= now then rows[i].(status := Pending) else rows[i])
  }

  function AckRow(row: Row): Row {
    if row.status == InProgress then row.(status := Done) else row
  }

  /** The update of a Nak that started at `now` and read `loaded` as the retry count. */
  function NakRow(row: Row, loaded: nat, maxRetries: int, base: int, now: int): Row {
    if row.status != InProgress then row
    else if loaded + 1 > RetryLimit(maxRetries) then row.(status := Failed, retryCount := loaded + 1)
    else row.(status := Pending, retryCount := loaded + 1, nextRetryAt := now + Delay(BaseBackoff(base), loaded + 1))
  }

  // ---- The table ----

  datatype NakResult = NakOk | NakMissing | NakExhausted

  class Table {
    var rows: seq<Row>

    constructor ()
      ensures rows == []
    {
      rows := [];
    }

    method Enqueue(eventType: string, now: int)
      modifies this
      ensures rows == old(rows) + [Row(eventType, Pending, 0, now)]
    {
      rows := rows + [Row(eventType, Pending, 0, now)];
    }

    method Select(now: int, filter: Filter, limit: nat) returns (ids: seq<nat>)
      ensures ids == Selected(rows, now, filter, limit, 0)
    {
      ids := [];
      var i := 0;
      while i < |rows| && |ids| < limit
        invariant 0 <= i <= |rows| && |ids| <= limit
        invariant Selected(rows, now, filter, limit, 0) == ids + Selected(rows, now, filter, limit - |ids|, i)
      {
        if Claimable(rows[i], i, now, filter) {
          ids := ids + [i];
        }
        i := i + 1;
      }
    }

    method Mark(ids: seq<nat>, until: int)
      requires forall k :: 0 <= k < |ids| ==> ids[k] < |rows|
      modifies this
      ensures rows == MarkClaimed(old(rows), ids, until)
    {
      var k := 0;
      while k < |ids|
        invariant 0 <= k <= |ids|
        invariant rows == MarkClaimed(old(rows), ids[..k], until)
      {
        rows := rows[ids[k] := rows[ids[k]].(status := InProgress, nextRetryAt := until)];
        assert ids[..k + 1] == ids[..k] + [ids[k]];
        k := k + 1;
      }
      assert ids[..k] == ids;
    }

    /** The claim transaction: select, then mark. */
    method Claim(filter: Filter, limit: int, lease: int, now: int) returns (ids: seq<nat>)
      modifies this
      ensures ids == Selected(old(rows), now, filter, ClaimLimit(limit), 0)
      ensures rows == MarkClaimed(old(rows), ids, now + lease)
      ensures TakesDue(old(rows), now, filter.types, filter.locked, if limit <= 0 then 16 else limit, ids)
      ensures Leased(old(rows), rows, ids, now + lease)
    {
      SelectedTakesDue(rows, now, filter, ClaimLimit(limit));
      ids := Select(now, filter, ClaimLimit(limit));
      MarkedIsLeased(rows, ids, now + lease);
      Mark(ids, now + lease);
    }

    /** The typed claim refuses an empty type list and replaces a non-positive lease. */
    method ClaimEventTypes(types: set<string>, locked: set<nat>, limit: int, lease: int, now: int)
      returns (ids: Option<seq<nat>>)
      modifies this
      ensures ids.None? <==> types == {}
      ensures ids.None? ==> rows == old(rows)
      ensures ids.Some? ==>
                ids.value == Selected(old(rows), now, Filter(Some(types), locked), ClaimLimit(limit), 0) &&
                rows == MarkClaimed(old(rows), ids.value, now + if lease <= 0 then 120 * SECOND else lease)
      ensures ids.Some? ==>
                TakesDue(old(rows), now, Some(types), locked, if limit <= 0 then 16 else limit, ids.value) &&
                Leased(old(rows), rows, ids.value, now + if lease <= 0 then 120 * SECOND else lease)
      ensures ids.Some? ==> forall k :: 0 <= k < |ids.value| ==> rows[ids.value[k]].eventType in types
    {
      if types == {} {
        return None;
      }
      var taken := Claim(Filter(Some(types), locked), limit, if lease <= 0 then 120 * SECOND else lease, now);
      ids := Some(taken);
    }

    method RequeueStuck(now: int)
      modifies this
      ensures rows == Requeued(old(rows), now)
    {
      var i := 0;
      while i < |rows|
        invariant 0 <= i <= |rows| == |old(rows)|
        invariant forall k :: 0 <= k < i ==> rows[k] == Requeued(old(rows), now)[k]
        invariant forall k :: i <= k < |rows| ==> rows[k] == old(rows)[k]
      {
        if rows[i].status == InProgress && rows[i].nextRetryAt <= now {
          rows := rows[i := rows[i].(status := Pending)];
        }
        i := i + 1;
      }
    }

    /** Only an in-progress row becomes done; doing it twice, or to any other row, changes nothing. */
    method Ack(id: nat)
      modifies this
      ensures |rows| == |old(rows)| && forall k :: 0 <= k < |rows| && k != id ==> rows[k] == old(rows)[k]
      ensures id < |rows| && old(rows)[id].status != InProgress ==> rows[id] == old(rows)[id]
      ensures id < |rows| && old(rows)[id].status == InProgress ==>
                rows[id].status == Done && rows[id].eventType == old(rows)[id].eventType &&
                rows[id].retryCount == old(rows)[id].retryCount && rows[id].nextRetryAt == old(rows)[id].nextRetryAt
      ensures id < |rows| ==> rows[id] == AckRow(old(rows)[id]) == AckRow(rows[id])
    {
      if id < |rows| {
        rows := rows[id := AckRow(rows[id])];
      }
    }

    /** A Nak counts one retry of an in-progress row and makes it wait or fail. Exhaustion is
        reported even when the row is not in progress and nothing is written. */
    method Nak(id: nat, maxRetries: int, base: int, now: int) returns (result: NakResult)
      modifies this
      ensures |rows| == |old(rows)| && forall k :: 0 <= k < |rows| && k != id ==> rows[k] == old(rows)[k]
      ensures result == NakMissing <==> id >= |old(rows)|
      ensures id < |rows| ==> (result == NakExhausted <==>
                                old(rows)[id].retryCount >= if maxRetries < 1 then 5 else maxRetries)
      ensures id < |rows| && old(rows)[id].status != InProgress ==> rows[id] == old(rows)[id]
      ensures id < |rows| && old(rows)[id].status == InProgress ==>
                rows[id].retryCount == old(rows)[id].retryCount + 1 &&
                rows[id].eventType == old(rows)[id].eventType &&
                (result == NakExhausted ==>
                 rows[id].status == Failed && rows[id].nextRetryAt == old(rows)[id].nextRetryAt) &&
                (result == NakOk ==>
                 rows[id].status == Pending &&
                 rows[id].nextRetryAt == now + Delay(if base <= 0 then 5 * SECOND else base, rows[id].retryCount))
      ensures id < |rows| ==> rows[id] == NakRow(old(rows)[id], old(rows)[id].retryCount, maxRetries, base, now)
    {
      if id >= |rows| {
        return NakMissing;
      }
      var row := rows[id];
      rows := rows[id := NakRow(row, row.retryCount, maxRetries, base, now)];
      result := if row.retryCount + 1 > RetryLimit(maxRetries) then NakExhausted else NakOk;
    }
  }

  // ---- Workers sharing the table ----

  /** One claimed row in the hands of one claim. */
  datatype Key = Key(claim: nat, id: nat)

  /** A worker still has to answer for the row, or has read it and not yet written the Nak.
      `seen` records how many Naks the row had had at the read. No step uses it. */
  datatype Holder =
    | Working(until: int)
    | Naking(until: int, loaded: nat, maxRetries: int, base: int, at: int, seen: nat)

  /** `naks` counts the Naks that changed each row. */
  datatype State = State(rows: seq<Row>, now: int, claims: nat, holders: map<Key, Holder>, naks: seq<nat>)

  const EMPTY := State([], 0, 0, map[], [])

  datatype Step =
    | Tick(elapsed: nat)
    | Enqueue(eventType: string)
    | Claim(filter: Filter, limit: int, lease: int)
    | RequeueStuck
    | Ack(key: Key)
    | NakLoad(key: Key, maxRetries: int, base: int)
    | NakWrite(key: Key)

  function Taken(s: State, a: Step): seq<nat>
    requires a.Claim?
  {
    Selected(s.rows, s.now, a.filter, ClaimLimit(a.limit), 0)
  }

  function NewHolders(claim: nat, ids: seq<nat>, until: int): map<Key, Holder> {
    map id | id in ids :: Key(claim, id) := Working(until)
  }

  function Next(s: State, a: Step): State {
    match a
    case Tick(elapsed) => s.(now := s.now + elapsed)
    case Enqueue(eventType) => s.(rows := s.rows + [Row(eventType, Pending, 0, s.now)], naks := s.naks + [0])
    case Claim(_, _, lease) =>
      s.(rows := MarkClaimed(s.rows, Taken(s, a), s.now + lease), claims := s.claims + 1,
         holders := s.holders + NewHolders(s.claims, Taken(s, a), s.now + lease))
    case RequeueStuck => s.(rows := Requeued(s.rows, s.now))
    case Ack(key) =>
      if key !in s.holders || !s.holders[key].Working? || key.id >= |s.rows| then s
      else s.(rows := s.rows[key.id := AckRow(s.rows[key.id])], holders := s.holders - {key})
    case NakLoad(key, maxRetries, base) =>
      if !Loads(s, a, key) then s
      else
        var seen := if key.id < |s.naks| then s.naks[key.id] else 0;
        s.(holders := s.holders[key := Naking(s.holders[key].until, s.rows[key.id].retryCount, maxRetries, base,
                                              s.now, seen)])
    case NakWrite(key) =>
      if key !in s.holders || !s.holders[key].Naking? || key.id >= |s.rows| then s
      else
        var h := s.holders[key];
        s.(rows := s.rows[key.id := NakRow(s.rows[key.id], h.loaded, h.maxRetries, h.base, h.at)],
           holders := s.holders - {key},
           naks := if Naks(s, a, key.id) && key.id < |s.naks| then s.naks[key.id := s.naks[key.id] + 1] else s.naks)
  }

  /** The step is the read of a Nak. */
  predicate Loads(s: State, a: Step, key: Key) {
    a.NakLoad? && a.key == key && key in s.holders && s.holders[key].Working? && key.id < |s.rows|
  }

  /** The step is a Nak that changes row `id`. */
  predicate Naks(s: State, a: Step, id: nat) {
    a.NakWrite? && a.key.id == id && a.key in s.holders && s.holders[a.key].Naking? &&
    id < |s.rows| && s.rows[id].status == InProgress
  }

  function Run(steps: seq<Step>): State
    decreases |steps|
  {
    if steps == [] then EMPTY else Next(Run(steps[..|steps| - 1]), steps[|steps| - 1])
  }

  predicate Claims(s: State, a: Step, id: nat) {
    a.Claim? && id in Taken(s, a)
  }

  // ---- No claim before its time ----

  /** Row `id` cannot be claimed before `time`. */
  ghost predicate Fenced(s: State, id: nat, time: int) {
    id < |s.rows| && (s.now >= time || s.rows[id].nextRetryAt >= time)
  }

  lemma StepKeepsFence(s: State, a: Step, id: nat, time: int)
    requires Fenced(s, id, time) && !Naks(s, a, id)
    ensures Fenced(Next(s, a), id, time)
    ensures Claims(s, a, id) ==> s.now >= time
  {
    if a.Claim? {
      SelectedSpec(s.rows, s.now, a.filter, ClaimLimit(a.limit), 0);
    }
  }

  lemma RunStep(steps: seq<Step>, k: nat)
    requires k < |steps|
    ensures Run(steps[..k + 1]) == Next(Run(steps[..k]), steps[k])
  {
    assert steps[..k + 1][..k] == steps[..k];
  }

  /** A claim fences the row until its lease is over. */
  lemma ClaimFences(s: State, a: Step, id: nat)
    requires Claims(s, a, id)
    ensures Fenced(Next(s, a), id, s.now + a.lease)
  {
    SelectedSpec(s.rows, s.now, a.filter, ClaimLimit(a.limit), 0);
  }

  /** No step from `i` up to `j` is a Nak of the row. */
  ghost predicate NoNak(steps: seq<Step>, i: nat, j: nat, id: nat)
    requires j <= |steps|
  {
    forall k :: i <= k < j ==> !Naks(Run(steps[..k]), steps[k], id)
  }

  lemma {:induction false} FenceLasts(steps: seq<Step>, i: nat, j: nat, id: nat, time: int)
    requires i <= j <= |steps| && Fenced(Run(steps[..i]), id, time) && NoNak(steps, i, j, id)
    ensures Fenced(Run(steps[..j]), id, time)
    decreases j
  {
    if i < j {
      RunStep(steps, j - 1);
      FenceLasts(steps, i, j - 1, id, time);
      StepKeepsFence(Run(steps[..j - 1]), steps[j - 1], id, time);
    }
  }

  lemma NoClaimBefore(steps: seq<Step>, i: nat, j: nat, id: nat, time: int)
    requires i <= j < |steps| && Fenced(Run(steps[..i]), id, time) && NoNak(steps, i, j, id)
    requires Claims(Run(steps[..j]), steps[j], id)
    ensures Run(steps[..j]).now >= time
  {
    FenceLasts(steps, i, j, id, time);
    StepKeepsFence(Run(steps[..j]), steps[j], id, time);
  }

  /** Two claims of one row with no Nak between them are at least the first one's lease apart. */
  lemma ClaimsAreALeaseApart(steps: seq<Step>, i: nat, j: nat, id: nat)
    requires i < j < |steps|
    requires Claims(Run(steps[..i]), steps[i], id) && Claims(Run(steps[..j]), steps[j], id)
    requires NoNak(steps, i + 1, j, id)
    ensures Run(steps[..j]).now >= Run(steps[..i]).now + steps[i].lease
  {
    RunStep(steps, i);
    ClaimFences(Run(steps[..i]), steps[i], id);
    NoClaimBefore(steps, i + 1, j, id, Run(steps[..i]).now + steps[i].lease);
  }

  /** When a row may be claimed again after a Nak. */
  function RetryTime(h: Holder): int
    requires h.Naking?
  {
    h.at + Delay(if h.base <= 0 then 5 * SECOND else h.base, h.loaded + 1)
  }

  predicate LastRetry(h: Holder)
    requires h.Naking?
  {
    h.loaded >= if h.maxRetries < 1 then 5 else h.maxRetries
  }

  /** A Nak that is not the last fences the row until its backoff is over. */
  lemma NakFences(s: State, a: Step, id: nat)
    requires Naks(s, a, id) && !LastRetry(s.holders[a.key])
    ensures Fenced(Next(s, a), id, RetryTime(s.holders[a.key]))
  {
  }

  /** After a Nak the row is not claimed again before the backoff, counted from the Nak's start. */
  lemma RetryWaitsForBackoff(steps: seq<Step>, i: nat, j: nat, id: nat)
    requires i < j < |steps|
    requires Naks(Run(steps[..i]), steps[i], id) && !LastRetry(Run(steps[..i]).holders[steps[i].key])
    requires NoNak(steps, i + 1, j, id) && Claims(Run(steps[..j]), steps[j], id)
    ensures Run(steps[..j]).now >= RetryTime(Run(steps[..i]).holders[steps[i].key])
  {
    RunStep(steps, i);
    NakFences(Run(steps[..i]), steps[i], id);
    NoClaimBefore(steps, i + 1, j, id, RetryTime(Run(steps[..i]).holders[steps[i].key]));
  }

  // ---- Done and failed are final ----

  ghost predicate Terminal(s: State, id: nat) {
    id < |s.rows| && (s.rows[id].status == Done || s.rows[id].status == Failed)
  }

  lemma StepKeepsTerminal(s: State, a: Step, id: nat)
    requires Terminal(s, id)
    ensures Terminal(Next(s, a), id) && Next(s, a).rows[id] == s.rows[id] && !Claims(s, a, id)
  {
    if a.Claim? {
      SelectedSpec(s.rows, s.now, a.filter, ClaimLimit(a.limit), 0);
    }
  }

  /** A done or failed row never changes again and is never handed to a worker again. */
  lemma {:induction false} TerminalIsFinal(steps: seq<Step>, i: nat, j: nat, id: nat)
    requires i <= j <= |steps| && Terminal(Run(steps[..i]), id)
    ensures Terminal(Run(steps[..j]), id) && Run(steps[..j]).rows[id] == Run(steps[..i]).rows[id]
    ensures j < |steps| ==> !Claims(Run(steps[..j]), steps[j], id)
    decreases j
  {
    if i < j {
      TerminalIsFinal(steps, i, j - 1, id);
      assert steps[..j][..j - 1] == steps[..j - 1];
      StepKeepsTerminal(Run(steps[..j - 1]), steps[j - 1], id);
    }
    if j < |steps| {
      StepKeepsTerminal(Run(steps[..j]), steps[j], id);
    }
  }
}
