/** What becomes of a file edit or a restore: the request reads the head of its branch, writes its
    objects, and moves the branch only if it still stands there (internal/gitengine/file.go,
    internal/gitengine/engine.go). */
module Landings {
  import opened Order
  import opened FileEdits
  import opened RefProtocol
  import opened Requests

  /** Step `j` is where the request that began at step `i` tries to land. */
  ghost predicate TriesToLand(steps: seq<Step>, i: nat, j: nat, req: nat) {
    i < j < |steps| && steps[j] == Land(req) &&
    forall k: nat :: i < k < j ==> steps[k] != Land(req) && steps[k] != Stop(req)
  }

  /** The branch goes from `base` to `after`, and nothing else changes. */
  ghost predicate Landed(t: State, u: State, branch: string, base: Commit, after: Commit, cause: Cause) {
    u.refs == t.refs[branch := after] && u.moves == t.moves + [Move(branch, base, after, cause)] && u.prs == t.prs
  }

  /** No branch, no pull request and no history changes. */
  ghost predicate Dropped(t: State, u: State) {
    u.refs == t.refs && u.moves == t.moves && u.prs == t.prs
  }

  /** A landing of `m` whose request began at step `i`, where the branch stood at `m.before`. */
  lemma LandsExactly(run: seq<State>, steps: seq<Step>, i: nat, j: nat, req: nat, m: Move)
    requires Follows(run, steps) && Initial(run[0]) && TriesToLand(steps, i, j, req)
    requires Holds(run, i + 1, req, Writing(m)) && HeadAt(run, i, m.branch) == Some(m.before)
    ensures var t, u := run[j], run[j + 1];
            u.requests == t.requests - {req} &&
            if Still(run, i, j, m.branch) then Landed(t, u, m.branch, m.before, m.after, m.cause) else Dropped(t, u)
  {
    WaitingHolds(run, steps, i, j, req, Writing(m));
    assert StepAt(run, steps, j);
    BackMeansStill(run, steps, i, j, m.branch);
  }

  /** A file edit that was not refused lands exactly when its branch has not moved since it read the
      head: the new head is then one commit on top of that head, with the edited tree. Otherwise the
      edit is dropped. */
  lemma EditLandsExactly(run: seq<State>, steps: seq<Step>, i: nat, j: nat, req: nat, branch: string, edit: Edit,
                         message: string, base: Commit)
    requires Follows(run, steps) && Initial(run[0]) && TriesToLand(steps, i, j, req)
    requires steps[i] == BeginEdit(req, branch, edit, message) && req !in run[i].requests
    requires HeadAt(run, i, branch) == Some(base) && EditTree(base.tree, edit).Some?
    ensures var t, u := run[j], run[j + 1];
            u.requests == t.requests - {req} &&
            if Still(run, i, j, branch)
            then Landed(t, u, branch, base, Commit(EditTree(base.tree, edit).value, [base], message), FileEdit(edit))
            else Dropped(t, u)
  {
    assert StepAt(run, steps, i);
    var after := Commit(EditTree(base.tree, edit).value, [base], message);
    LandsExactly(run, steps, i, j, req, Move(branch, base, after, FileEdit(edit)));
  }

  /** A restore lands exactly when its branch has not moved since it was compared with the expected
      head: the new head is one commit on top of that head, with the tree of the restored commit. */
  lemma RestoreLandsExactly(run: seq<State>, steps: seq<Step>, i: nat, j: nat, req: nat, branch: string, source: Commit,
                            expected: Commit, message: string)
    requires Follows(run, steps) && Initial(run[0]) && TriesToLand(steps, i, j, req)
    requires steps[i] == BeginRestore(req, branch, source, expected, message) && req !in run[i].requests
    requires HeadAt(run, i, branch) == Some(expected)
    ensures var t, u := run[j], run[j + 1];
            u.requests == t.requests - {req} &&
            if Still(run, i, j, branch)
            then Landed(t, u, branch, expected, Commit(source.tree, [expected], message), Restore(source))
            else Dropped(t, u)
  {
    assert StepAt(run, steps, i);
    var after := Commit(source.tree, [expected], message);
    LandsExactly(run, steps, i, j, req, Move(branch, expected, after, Restore(source)));
  }

  /** A refused edit, or a restore whose expected head is stale, starts nothing. */
  lemma RefusedStartsNothing(t: State, a: Step)
    requires match a
             case BeginEdit(_, branch, edit, _) => branch !in t.refs || EditTree(t.refs[branch].tree, edit).None?
             case BeginRestore(_, branch, _, expected, _) => branch !in t.refs || t.refs[branch] != expected
             case _ => false
    ensures Next(t, a) == t
  {
  }

  lemma LandedBy(t: State, a: Step, m: Move) returns (req: nat)
    requires m in Next(t, a).moves && m !in t.moves && m.cause.FileEdit?
    ensures a == Land(req) && req in t.requests && t.requests[req] == Writing(m) && Head(t, m.branch) == Some(m.before)
  {
    assert a.Land?;
    req := a.req;
  }

  lemma WrittenBy(t: State, a: Step, req: nat, m: Move) returns (message: string)
    requires GetsTo(t, a, req, Writing(m)) && m.cause.FileEdit?
    ensures a == BeginEdit(req, m.branch, m.cause.edit, message) && Head(t, m.branch) == Some(m.before)
    ensures EditTree(m.before.tree, m.cause.edit).Some? &&
            m.after == Commit(EditTree(m.before.tree, m.cause.edit).value, [m.before], message)
  {
    assert a.BeginEdit?;
    message := a.message;
  }

  /** The step that made a move. */
  lemma {:induction false} MoveMade(run: seq<State>, steps: seq<Step>, n: nat, m: Move) returns (j: nat)
    requires Follows(run, steps) && run[0].moves == [] && n < |run| && m in run[n].moves
    ensures j < n && m !in run[j].moves && m in run[j + 1].moves
    decreases n
  {
    if m in run[n - 1].moves {
      j := MoveMade(run, steps, n - 1, m);
    } else {
      j := n - 1;
    }
  }

  /** The edit `m` was begun at step `i` on the head it replaces, and landed at step `j`. */
  ghost predicate EditedBy(run: seq<State>, steps: seq<Step>, i: nat, j: nat, req: nat, message: string, m: Move)
    requires m.cause.FileEdit?
  {
    TriesToLand(steps, i, j, req) && steps[i] == BeginEdit(req, m.branch, m.cause.edit, message) &&
    HeadAt(run, i, m.branch) == Some(m.before) && Still(run, i, j, m.branch) &&
    EditTree(m.before.tree, m.cause.edit).Some? &&
    m.after == Commit(EditTree(m.before.tree, m.cause.edit).value, [m.before], message)
  }

  lemma LandingTraced(run: seq<State>, steps: seq<Step>, j: nat, req: nat, m: Move) returns (i: nat, message: string)
    requires Follows(run, steps) && Initial(run[0]) && j < |steps| && steps[j] == Land(req) && m.cause.FileEdit?
    requires Holds(run, j, req, Writing(m)) && HeadAt(run, j, m.branch) == Some(m.before)
    ensures EditedBy(run, steps, i, j, req, message, m)
  {
    i := Origin(run, steps, j, req, Writing(m));
    message := WrittenBy(run[i], steps[i], req, m);
    assert HeadAt(run, i, m.branch) == Some(m.before);
    BackMeansStill(run, steps, i, j, m.branch);
  }

  /** Every edit in the history is the landing of a request that read the commit it replaced. */
  lemma EditHasRequest(run: seq<State>, steps: seq<Step>, m: Move) returns (i: nat, j: nat, req: nat, message: string)
    requires Follows(run, steps) && Initial(run[0]) && m in run[|steps|].moves && m.cause.FileEdit?
    ensures EditedBy(run, steps, i, j, req, message, m)
  {
    j := MoveMade(run, steps, |steps|, m);
    assert StepAt(run, steps, j);
    req := LandedBy(run[j], steps[j], m);
    i, message := LandingTraced(run, steps, j, req, m);
  }
}
