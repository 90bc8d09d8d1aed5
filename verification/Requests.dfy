/** How a request goes from one of its steps to the next while others run, for the requests of
    `RefProtocol`, and what a branch that stands where it stood says about the time between. */
module Requests {
  import opened Order
  import opened RefProtocol

  ghost predicate StepAt(run: seq<State>, steps: seq<Step>, k: nat) {
    k < |steps| && k + 1 < |run| && run[k + 1] == Next(run[k], steps[k])
  }

  /** A run with its states: `run[k]` is the one before step `k`, and the last one ends the run. */
  ghost predicate Follows(run: seq<State>, steps: seq<Step>) {
    |run| == |steps| + 1 && forall k: nat :: k < |steps| ==> StepAt(run, steps, k)
  }

  /** It is the run of `RefProtocol`. */
  lemma {:induction false} FollowsRun(run: seq<State>, steps: seq<Step>, k: nat)
    requires Follows(run, steps) && k <= |steps|
    ensures run[k] == Run(run[0], steps[..k])
    decreases k
  {
    if k > 0 {
      FollowsRun(run, steps, k - 1);
      assert StepAt(run, steps, k - 1);
      assert steps[..k][..k - 1] == steps[..k - 1];
    }
  }

  /** Before step `k` the request stands at `x`. */
  ghost predicate Holds(run: seq<State>, k: nat, req: nat, x: Request) {
    k < |run| && req in run[k].requests && run[k].requests[req] == x
  }

  /** The one step that a request at `x` takes, whatever comes of it. */
  predicate Takes(x: Request, a: Step, req: nat) {
    match x
    case Writing(_) => a == Land(req)
    case Opened(_, _, _) => a == MergeReviews(req)
    case Loaded(_, _, _) => a == MergeCheckTarget(req)
    case TargetChecked(_, _, _) => a == MergeCheckSource(req)
    case SourceChecked(_, _, _) => a.MergeRead? && a.req == req
    case MergeReady(_, _, _) => a == MergeMove(req)
    case Moved(_, _, _) => a == MergeRecord(req)
  }

  /** Between steps `i` and `j` the request takes no step and does not stop. */
  ghost predicate Waits(steps: seq<Step>, i: nat, j: nat, req: nat, x: Request) {
    j <= |steps| && forall k: nat :: i < k < j ==> !Takes(x, steps[k], req) && steps[k] != Stop(req)
  }

  /** A request that got to `x` at step `i` goes on at step `j`. */
  ghost predicate GoesOn(steps: seq<Step>, i: nat, j: nat, req: nat, x: Request) {
    i < j < |steps| && Takes(x, steps[j], req) && Waits(steps, i, j, req, x)
  }

  /** A step leaves a request alone unless it is the request's own next one or stops it. */
  lemma RequestStays(t: State, a: Step, req: nat, x: Request)
    requires req in t.requests && t.requests[req] == x && !Takes(x, a, req) && a != Stop(req)
    ensures req in Next(t, a).requests && Next(t, a).requests[req] == x
  {
  }

  lemma RequestMoves(t: State, a: Step, req: nat, x: Request)
    requires req in t.requests && t.requests[req] == x && req in Next(t, a).requests && Next(t, a).requests[req] == x
    ensures !Takes(x, a, req) && a != Stop(req)
  {
  }

  lemma {:induction false} WaitingHolds(run: seq<State>, steps: seq<Step>, i: nat, j: nat, req: nat, x: Request)
    requires Follows(run, steps) && i < j && Holds(run, i + 1, req, x) && Waits(steps, i, j, req, x)
    ensures Holds(run, j, req, x)
    decreases j
  {
    if i + 1 < j {
      WaitingHolds(run, steps, i, j - 1, req, x);
      RequestStays(run[j - 1], steps[j - 1], req, x);
      assert StepAt(run, steps, j - 1);
    }
  }

  /** The step takes the request to `x`. */
  ghost predicate GetsTo(t: State, a: Step, req: nat, x: Request) {
    req in Next(t, a).requests && Next(t, a).requests[req] == x && !(req in t.requests && t.requests[req] == x)
  }

  lemma WaitsLonger(steps: seq<Step>, i: nat, j: nat, req: nat, x: Request)
    requires i < j < |steps| && Waits(steps, i, j, req, x) && !Takes(x, steps[j], req) && steps[j] != Stop(req)
    ensures Waits(steps, i, j + 1, req, x)
  {
  }

  /** The step at which a request got to where it stands. */
  lemma {:induction false} Origin(run: seq<State>, steps: seq<Step>, n: nat, req: nat, x: Request) returns (c: nat)
    requires Follows(run, steps) && run[0].requests == map[] && Holds(run, n, req, x)
    ensures c < n && GetsTo(run[c], steps[c], req, x) && Waits(steps, c, n, req, x)
    decreases n
  {
    assert n > 0;
    assert StepAt(run, steps, n - 1);
    if Holds(run, n - 1, req, x) {
      c := Origin(run, steps, n - 1, req, x);
      RequestMoves(run[n - 1], steps[n - 1], req, x);
      WaitsLonger(steps, c, n - 1, req, x);
    } else {
      c := n - 1;
    }
  }

  /** A pull request keeps its source and target. */
  lemma {:induction false} RowStays(run: seq<State>, steps: seq<Step>, i: nat, j: nat, pr: nat)
    requires Follows(run, steps) && i <= j < |run| && pr in run[i].prs
    ensures RowOf(run[j], pr, run[i].prs[pr])
    decreases j
  {
    if i < j {
      RowStays(run, steps, i, j - 1, pr);
      assert StepAt(run, steps, j - 1);
      StepGrows(run[j - 1], steps[j - 1]);
    }
  }

  // ---- Branches that do not move ----

  ghost function HeadAt(run: seq<State>, k: nat, branch: string): Option<Commit> {
    if k < |run| then Head(run[k], branch) else None
  }

  /** The branch does not move from step `c` to step `r`. */
  ghost predicate Still(run: seq<State>, c: nat, r: nat, branch: string) {
    forall k: nat :: c <= k <= r < |run| ==> HeadAt(run, k, branch) == HeadAt(run, c, branch)
  }

  lemma HeadsDescend(run: seq<State>, steps: seq<Step>, i: nat, j: nat, branch: string)
    requires Follows(run, steps) && Inv(run[0]) && i <= j < |run| && HeadAt(run, i, branch).Some?
    ensures HeadAt(run, j, branch).Some? && Ancestor(HeadAt(run, i, branch).value, HeadAt(run, j, branch).value)
  {
    FollowsRun(run, steps, i);
    FollowsRun(run, steps, j);
    HistoryIsAppendOnly(run[0], steps, i, j);
  }

  /** History has no cycles: a branch is where it was exactly when it has not moved since. */
  lemma BackMeansStill(run: seq<State>, steps: seq<Step>, c: nat, r: nat, branch: string)
    requires Follows(run, steps) && Inv(run[0]) && c <= r < |run| && HeadAt(run, c, branch).Some?
    ensures HeadAt(run, r, branch) == HeadAt(run, c, branch) <==> Still(run, c, r, branch)
  {
    if HeadAt(run, r, branch) == HeadAt(run, c, branch) {
      forall k: nat | c <= k <= r < |run|
        ensures HeadAt(run, k, branch) == HeadAt(run, c, branch)
      {
        HeadsDescend(run, steps, c, k, branch);
        HeadsDescend(run, steps, k, r, branch);
        AncestorAntisymmetric(HeadAt(run, c, branch).value, HeadAt(run, k, branch).value);
      }
    }
  }
}
