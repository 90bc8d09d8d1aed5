/** Branch heads, file commits, restores, merges and pull requests as one protocol.

    Every request is split into the steps at which other requests can run: reading a
    ref, building a commit, the compare-and-set of the ref, writing a pull-request row.
    A run is any list of steps by any number of requests; a request that stops (an error
    or a crash) simply makes no further step. */
module RefProtocol {
  import opened Order
  import opened GitLevel
  import opened GitTree
  import opened FileEdits

  /** A commit, identified with its content: an ideal hash, and no cycles. */
  datatype Commit = Commit(tree: seq<TreeEntry>, parents: seq<Commit>, message: string)

  ghost predicate Ancestor(a: Commit, c: Commit)
    decreases c
  {
    a == c || exists p :: p in c.parents && Ancestor(a, p)
  }

  lemma {:induction false} AncestorTransitive(a: Commit, b: Commit, c: Commit)
    requires Ancestor(a, b) && Ancestor(b, c)
    ensures Ancestor(a, c)
    decreases c
  {
    if b != c {
      var p :| p in c.parents && Ancestor(b, p);
      AncestorTransitive(a, b, p);
    }
  }

  /** Height of the history below a commit. */
  function Height(c: Commit): nat
    decreases c, 1
  {
    1 + MaxHeight(c.parents)
  }

  function MaxHeight(cs: seq<Commit>): nat
    decreases cs, 0
  {
    if cs == [] then 0
    else
      var rest := MaxHeight(cs[1..]);
      if Height(cs[0]) > rest then Height(cs[0]) else rest
  }

  lemma {:induction false} ParentLower(cs: seq<Commit>, p: Commit)
    requires p in cs
    ensures Height(p) <= MaxHeight(cs)
  {
    if p != cs[0] {
      ParentLower(cs[1..], p);
    }
  }

  lemma {:induction false} AncestorLower(a: Commit, c: Commit)
    requires Ancestor(a, c)
    ensures a == c || Height(a) < Height(c)
    decreases c
  {
    if a != c {
      var p :| p in c.parents && Ancestor(a, p);
      AncestorLower(a, p);
      ParentLower(c.parents, p);
    }
  }

  /** History has no cycles: mutual ancestors are the same commit. */
  lemma AncestorAntisymmetric(a: Commit, b: Commit)
    requires Ancestor(a, b) && Ancestor(b, a)
    ensures a == b
  {
    AncestorLower(a, b);
    AncestorLower(b, a);
  }

  // ---- State ----

  /** Pull requests always target the default branch. */
  const MAIN := "refs/heads/main"

  datatype Verdict = Approve | RequestChanges

  datatype PrState = Open | Closed | Merged(mergedSha: Commit)

  datatype PullRequest =
    PullRequest(sourceRef: string, sourceSha: Commit, targetSha: Commit, state: PrState, reviews: seq<Verdict>)

  /** Who moved a ref. */
  datatype Cause = FileEdit(edit: Edit) | Restore(source: Commit) | MergeOf(pr: nat) | Push

  datatype Move = Move(branch: string, before: Commit, after: Commit, cause: Cause)

  /** How far a request has come. */
  datatype Request =
    | Writing(move: Move)
    | Opened(pr: nat, row: PullRequest, expected: Commit)
    | Loaded(pr: nat, row: PullRequest, expected: Commit)
    | TargetChecked(pr: nat, row: PullRequest, expected: Commit)
    | SourceChecked(pr: nat, row: PullRequest, expected: Commit)
    | MergeReady(pr: nat, expected: Commit, source: Commit)
    | Moved(pr: nat, expected: Commit, source: Commit)

  /** `moves` is the history of successful ref updates; no step reads it. */
  datatype State = State(
    refs: map<string, Commit>,
    requests: map<nat, Request>,
    prs: map<nat, PullRequest>,
    moves: seq<Move>)

  datatype Step =
    | BeginEdit(req: nat, branch: string, edit: Edit, message: string)
    | BeginRestore(req: nat, branch: string, source: Commit, expectedHead: Commit, message: string)
    | Land(req: nat)
    | FastForward(branch: string, next: Commit)
    | NewBranch(branch: string, start: Commit)
    | OpenPr(pr: nat, sourceRef: string, sourceSha: Commit, targetSha: Commit)
    | Review(pr: nat, verdict: Verdict)
    | ClosePr(pr: nat)
    | MergeLoad(req: nat, pr: nat, expected: Commit)
    | MergeReviews(req: nat)
    | MergeCheckTarget(req: nat)
    | MergeCheckSource(req: nat)
    | MergeRead(req: nat, metadataOk: bool)
    | MergeMove(req: nat)
    | MergeRecord(req: nat)
    | Stop(req: nat)

  predicate Approved(reviews: seq<Verdict>) {
    Approve in reviews && RequestChanges !in reviews
  }

  function Begin(s: State, req: nat, r: Request): State {
    s.(requests := s.requests[req := r])
  }

  function Finish(s: State, req: nat): State {
    s.(requests := s.requests - {req})
  }

  function Moving(s: State, m: Move): State {
    s.(refs := s.refs[m.branch := m.after], moves := s.moves + [m])
  }

  /** A ref read: the head of a branch. */
  function Head(s: State, branch: string): Option<Commit> {
    if branch in s.refs then Some(s.refs[branch]) else None
  }

  ghost function Next(s: State, a: Step): State {
    match a
    case BeginEdit(req, branch, edit, message) =>
      // openBare, the entry checks, the tree writers and commitTreeFromParents.
      if req in s.requests || branch !in s.refs then s
      else
        var base := s.refs[branch];
        var tree := EditTree(base.tree, edit);
        if tree.None? then s
        else Begin(s, req, Writing(Move(branch, base, Commit(tree.value, [base], message), FileEdit(edit))))
    case BeginRestore(req, branch, source, expectedHead, message) =>
      // RestoreRef up to commit-tree.
      if req in s.requests || Head(s, branch) != Some(expectedHead) then s
      else Begin(s, req, Writing(Move(branch, expectedHead, Commit(source.tree, [expectedHead], message),
                                      Restore(source))))
    case Land(req) =>
      // setBranchRef, or update-ref with the old value.
      if req !in s.requests || !s.requests[req].Writing? then s
      else
        var m := s.requests[req].move;
        if Head(s, m.branch) == Some(m.before) then Moving(Finish(s, req), m) else Finish(s, req)
    case FastForward(branch, next) =>
      if branch in s.refs && Ancestor(s.refs[branch], next)
      then Moving(s, Move(branch, s.refs[branch], next, Push)) else s
    case NewBranch(branch, start) =>
      if branch in s.refs then s else s.(refs := s.refs[branch := start])
    case OpenPr(pr, sourceRef, sourceSha, targetSha) =>
      if pr in s.prs then s
      else s.(prs := s.prs[pr := PullRequest(sourceRef, sourceSha, targetSha, Open, [])])
    case Review(pr, verdict) =>
      if pr !in s.prs then s
      else s.(prs := s.prs[pr := s.prs[pr].(reviews := s.prs[pr].reviews + [verdict])])
    case ClosePr(pr) =>
      if pr in s.prs && s.prs[pr].state == Open then s.(prs := s.prs[pr := s.prs[pr].(state := Closed)]) else s
    case MergeLoad(req, pr, expected) =>
      if req !in s.requests && pr in s.prs && s.prs[pr].state == Open
      then Begin(s, req, Opened(pr, s.prs[pr], expected)) else s
    case MergeReviews(req) =>
      if req !in s.requests || !s.requests[req].Opened? then s
      else
        var r := s.requests[req];
        if r.pr in s.prs && Approved(s.prs[r.pr].reviews)
        then Begin(s, req, Loaded(r.pr, r.row, r.expected)) else Finish(s, req)
    case MergeCheckTarget(req) =>
      if req !in s.requests || !s.requests[req].Loaded? then s
      else
        var r := s.requests[req];
        if Head(s, MAIN) == Some(r.row.targetSha) && r.row.targetSha == r.expected
        then Begin(s, req, TargetChecked(r.pr, r.row, r.expected)) else Finish(s, req)
    case MergeCheckSource(req) =>
      if req !in s.requests || !s.requests[req].TargetChecked? then s
      else
        var r := s.requests[req];
        if Head(s, r.row.sourceRef) == Some(r.row.sourceSha)
        then Begin(s, req, SourceChecked(r.pr, r.row, r.expected)) else Finish(s, req)
    case MergeRead(req, metadataOk) =>
      // Merge reads the source ref again; merge-base equals the target exactly for ancestors.
      if req !in s.requests || !s.requests[req].SourceChecked? then s
      else
        var r := s.requests[req];
        var source := Head(s, r.row.sourceRef);
        if source.Some? && Ancestor(r.expected, source.value) && metadataOk
        then Begin(s, req, MergeReady(r.pr, r.expected, source.value)) else Finish(s, req)
    case MergeMove(req) =>
      if req !in s.requests || !s.requests[req].MergeReady? then s
      else
        var r := s.requests[req];
        if Head(s, MAIN) == Some(r.expected)
        then Begin(Moving(s, Move(MAIN, r.expected, r.source, MergeOf(r.pr))), req, Moved(r.pr, r.expected, r.source))
        else Finish(s, req)
    case MergeRecord(req) =>
      // The row transaction of pull_request.go: still open, still the same target.
      if req !in s.requests || !s.requests[req].Moved? then s
      else
        var r := s.requests[req];
        if r.pr in s.prs && s.prs[r.pr].state == Open && s.prs[r.pr].targetSha == r.expected
        then Finish(s, req).(prs := s.prs[r.pr := s.prs[r.pr].(state := Merged(r.source))])
        else Finish(s, req)
    case Stop(req) => Finish(s, req)
  }

  /** A repository with some branches, before any request. */
  predicate Initial(s: State) {
    s.requests == map[] && s.prs == map[] && s.moves == []
  }

  ghost function Run(s: State, steps: seq<Step>): State
    decreases |steps|
  {
    if steps == [] then s else Next(Run(s, steps[..|steps| - 1]), steps[|steps| - 1])
  }

  // ---- Invariants ----

  /** A move builds on the commit it replaces: the new head is a descendant, and a file
      request or restore has exactly the old head as parent. */
  ghost predicate MoveOk(m: Move) {
    match m.cause
    case FileEdit(edit) =>
      m.after.parents == [m.before] && EditTree(m.before.tree, edit) == Some(m.after.tree)
    case Restore(source) => m.after.parents == [m.before] && m.after.tree == source.tree
    case MergeOf(pr) => Ancestor(m.before, m.after) && m.branch == MAIN
    case Push => Ancestor(m.before, m.after)
  }

  /** A row read earlier still has the pull request's source and target. */
  ghost predicate RowOf(s: State, pr: nat, row: PullRequest) {
    pr in s.prs && row.targetSha == s.prs[pr].targetSha &&
    row.sourceRef == s.prs[pr].sourceRef && row.sourceSha == s.prs[pr].sourceSha
  }

  ghost predicate RequestOk(s: State, r: Request) {
    match r
    case Writing(m) => MoveOk(m) && (m.cause.FileEdit? || m.cause.Restore?)
    case Opened(pr, row, expected) => RowOf(s, pr, row)
    case Loaded(pr, row, expected) => RowOf(s, pr, row) && Approve in s.prs[pr].reviews
    case TargetChecked(pr, row, expected) =>
      RowOf(s, pr, row) && expected == s.prs[pr].targetSha && Approve in s.prs[pr].reviews
    case SourceChecked(pr, row, expected) =>
      RowOf(s, pr, row) && expected == s.prs[pr].targetSha && Approve in s.prs[pr].reviews
    case MergeReady(pr, expected, source) =>
      pr in s.prs && expected == s.prs[pr].targetSha && Approve in s.prs[pr].reviews && Ancestor(expected, source)
    case Moved(pr, expected, source) =>
      pr in s.prs && expected == s.prs[pr].targetSha && Approve in s.prs[pr].reviews &&
      Move(MAIN, expected, source, MergeOf(pr)) in s.moves
  }

  ghost predicate RequestsOk(s: State) {
    forall req :: req in s.requests ==> RequestOk(s, s.requests[req])
  }

  /** Every move ever made leads to the present head of its branch, through every later move. */
  ghost predicate MovesOk(s: State) {
    (forall i :: 0 <= i < |s.moves| ==>
       MoveOk(s.moves[i]) && s.moves[i].branch in s.refs && Ancestor(s.moves[i].after, s.refs[s.moves[i].branch])) &&
    (forall i, j :: 0 <= i < j < |s.moves| && s.moves[i].branch == s.moves[j].branch ==>
       Ancestor(s.moves[i].after, s.moves[j].before))
  }

  ghost predicate PrsOk(s: State) {
    forall pr :: pr in s.prs && s.prs[pr].state.Merged? ==>
      Move(MAIN, s.prs[pr].targetSha, s.prs[pr].state.mergedSha, MergeOf(pr)) in s.moves &&
      Approve in s.prs[pr].reviews
  }

  ghost predicate Inv(s: State) {
    RequestsOk(s) && MovesOk(s) && PrsOk(s)
  }

  lemma MoveOkAncestor(m: Move)
    requires MoveOk(m)
    ensures Ancestor(m.before, m.after)
    ensures (m.cause.FileEdit? || m.cause.Restore?) ==> m.before != m.after
  {
    if m.cause.FileEdit? || m.cause.Restore? {
      assert m.before in m.after.parents;
      AncestorLower(m.before, m.before);
      ParentLower(m.after.parents, m.before);
    }
  }

  /** No head moved; a new branch may have appeared. */
  ghost predicate Unmoved(s: State, t: State) {
    t.moves == s.moves && forall b :: b in s.refs ==> b in t.refs && t.refs[b] == s.refs[b]
  }

  /** Exactly one head moved, from the commit the move expected. */
  ghost predicate MovedBy(s: State, t: State, m: Move) {
    MoveOk(m) && Head(s, m.branch) == Some(m.before) &&
    t.moves == s.moves + [m] && t.refs == s.refs[m.branch := m.after]
  }

  /** Every step moves no head, or one head by a compare-and-set. */
  lemma StepShape(s: State, a: Step) returns (m: Option<Move>)
    requires RequestsOk(s)
    ensures m.None? ==> Unmoved(s, Next(s, a))
    ensures m.Some? ==> MovedBy(s, Next(s, a), m.value)
  {
    m := None;
    match a
    case Land(req) =>
      if req in s.requests && s.requests[req].Writing? &&
         Head(s, s.requests[req].move.branch) == Some(s.requests[req].move.before) {
        assert RequestOk(s, s.requests[req]);
        m := Some(s.requests[req].move);
      }
    case FastForward(branch, next) =>
      if branch in s.refs && Ancestor(s.refs[branch], next) {
        m := Some(Move(branch, s.refs[branch], next, Push));
      }
    case MergeMove(req) =>
      if req in s.requests && s.requests[req].MergeReady? && Head(s, MAIN) == Some(s.requests[req].expected) {
        assert RequestOk(s, s.requests[req]);
        m := Some(Move(MAIN, s.requests[req].expected, s.requests[req].source, MergeOf(s.requests[req].pr)));
      }
    case _ =>
  }

  lemma MovingKeepsMoves(s: State, t: State, m: Move)
    requires MovesOk(s) && MovedBy(s, t, m)
    ensures MovesOk(t)
  {
    MoveOkAncestor(m);
    forall i | 0 <= i < |t.moves|
      ensures MoveOk(t.moves[i]) && t.moves[i].branch in t.refs && Ancestor(t.moves[i].after, t.refs[t.moves[i].branch])
    {
      if i < |s.moves| && s.moves[i].branch == m.branch {
        AncestorTransitive(s.moves[i].after, m.before, m.after);
      }
    }
  }

  lemma StepKeepsMoves(s: State, a: Step)
    requires Inv(s)
    ensures MovesOk(Next(s, a))
  {
    var m := StepShape(s, a);
    if m.Some? {
      MovingKeepsMoves(s, Next(s, a), m.value);
    }
  }

  /** Pull requests keep source, target and approvals, and the history of moves grows. */
  ghost predicate Grows(s: State, t: State) {
    s.moves <= t.moves &&
    forall pr :: pr in s.prs ==>
      pr in t.prs && t.prs[pr].targetSha == s.prs[pr].targetSha &&
      t.prs[pr].sourceRef == s.prs[pr].sourceRef && t.prs[pr].sourceSha == s.prs[pr].sourceSha &&
      (Approve in s.prs[pr].reviews ==> Approve in t.prs[pr].reviews)
  }

  lemma StepGrows(s: State, a: Step)
    ensures Grows(s, Next(s, a))
  {
  }

  lemma RequestFrame(s: State, t: State, r: Request)
    requires RequestOk(s, r) && Grows(s, t)
    ensures RequestOk(t, r)
  {
  }

  lemma NewWriteOk(s: State, a: Step, req: nat)
    requires a.BeginEdit? || a.BeginRestore?
    requires req in Next(s, a).requests && (req !in s.requests || Next(s, a).requests[req] != s.requests[req])
    ensures RequestOk(Next(s, a), Next(s, a).requests[req])
  {
  }

  lemma NewCheckOk(s: State, a: Step, req: nat)
    requires RequestsOk(s) && (a.MergeLoad? || a.MergeReviews? || a.MergeCheckTarget? || a.MergeCheckSource?)
    requires req in Next(s, a).requests && (req !in s.requests || Next(s, a).requests[req] != s.requests[req])
    ensures RequestOk(Next(s, a), Next(s, a).requests[req])
  {
    assert req in s.requests ==> RequestOk(s, s.requests[req]);
  }

  lemma NewMergeOk(s: State, a: Step, req: nat)
    requires RequestsOk(s) && (a.MergeRead? || a.MergeMove?)
    requires req in Next(s, a).requests && (req !in s.requests || Next(s, a).requests[req] != s.requests[req])
    ensures RequestOk(Next(s, a), Next(s, a).requests[req])
  {
    assert req in s.requests ==> RequestOk(s, s.requests[req]);
  }

  /** The request a step starts or moves on is in order. */
  lemma NewRequestOk(s: State, a: Step, req: nat)
    requires RequestsOk(s) && req in Next(s, a).requests
    requires req !in s.requests || Next(s, a).requests[req] != s.requests[req]
    ensures RequestOk(Next(s, a), Next(s, a).requests[req])
  {
    if a.BeginEdit? || a.BeginRestore? {
      NewWriteOk(s, a, req);
    } else if a.MergeRead? || a.MergeMove? {
      NewMergeOk(s, a, req);
    } else {
      NewCheckOk(s, a, req);
    }
  }

  lemma StepKeepsRequests(s: State, a: Step)
    requires Inv(s)
    ensures RequestsOk(Next(s, a))
  {
    var t := Next(s, a);
    StepGrows(s, a);
    forall req | req in t.requests
      ensures RequestOk(t, t.requests[req])
    {
      if req in s.requests && t.requests[req] == s.requests[req] {
        RequestFrame(s, t, t.requests[req]);
      } else {
        NewRequestOk(s, a, req);
      }
    }
  }

  lemma StepKeepsPrs(s: State, a: Step)
    requires Inv(s)
    ensures PrsOk(Next(s, a))
  {
    if a.MergeRecord? && a.req in s.requests {
      assert RequestOk(s, s.requests[a.req]);
    }
  }

  lemma StepKeepsInv(s: State, a: Step)
    requires Inv(s)
    ensures Inv(Next(s, a))
  {
    StepKeepsMoves(s, a);
    StepKeepsRequests(s, a);
    StepKeepsPrs(s, a);
  }

  lemma {:induction false} RunKeepsInv(s: State, steps: seq<Step>)
    requires Inv(s)
    ensures Inv(Run(s, steps))
    decreases |steps|
  {
    if steps != [] {
      RunKeepsInv(s, steps[..|steps| - 1]);
      StepKeepsInv(Run(s, steps[..|steps| - 1]), steps[|steps| - 1]);
    }
  }

  // ---- Append-only history ----

  /** Every branch is kept, its head is the same or a descendant, and no move is forgotten. */
  ghost predicate Descends(early: State, late: State) {
    early.moves <= late.moves &&
    forall b :: b in early.refs ==> b in late.refs && Ancestor(early.refs[b], late.refs[b])
  }

  lemma DescendsTransitive(early: State, mid: State, late: State)
    requires Descends(early, mid) && Descends(mid, late)
    ensures Descends(early, late)
  {
    forall b | b in early.refs
      ensures b in late.refs && Ancestor(early.refs[b], late.refs[b])
    {
      AncestorTransitive(early.refs[b], mid.refs[b], late.refs[b]);
    }
  }

  lemma StepOnlyExtends(s: State, a: Step)
    requires Inv(s)
    ensures Descends(s, Next(s, a))
  {
    var m := StepShape(s, a);
    if m.Some? {
      MoveOkAncestor(m.value);
    }
  }

  /** Append-only history: in every run, between any two points, each branch head descends
      from all its earlier heads and the history of moves only grows. */
  lemma {:induction false} HistoryIsAppendOnly(s: State, steps: seq<Step>, i: nat, j: nat)
    requires Inv(s) && i <= j <= |steps|
    ensures Descends(Run(s, steps[..i]), Run(s, steps[..j]))
    decreases j
  {
    if i < j {
      HistoryIsAppendOnly(s, steps, i, j - 1);
      var early, mid := Run(s, steps[..i]), Run(s, steps[..j - 1]);
      assert steps[..j][..j - 1] == steps[..j - 1];
      RunKeepsInv(s, steps[..j - 1]);
      StepOnlyExtends(mid, steps[j - 1]);
      DescendsTransitive(early, mid, Next(mid, steps[j - 1]));
    }
  }

  predicate SameStart(m: Move, n: Move) {
    m.branch == n.branch && m.before == n.before
  }

  /** Every commit that ever landed stays reachable from the head of its branch, and of all
      the updates that started from the same head, only the last can have changed anything. So
      of two file writes or restores based on the same head at most one succeeds. */
  lemma LandedCommitsSurvive(s: State, steps: seq<Step>)
    requires Initial(s)
    ensures var t := Run(s, steps);
            (forall m :: m in t.moves ==> m.branch in t.refs && Ancestor(m.after, t.refs[m.branch])) &&
            (forall i, j :: 0 <= i < j < |t.moves| && SameStart(t.moves[i], t.moves[j]) ==>
               t.moves[i].after == t.moves[i].before && (t.moves[i].cause.MergeOf? || t.moves[i].cause.Push?))
  {
    RunKeepsInv(s, steps);
    var t := Run(s, steps);
    forall i, j | 0 <= i < j < |t.moves| && SameStart(t.moves[i], t.moves[j])
      ensures t.moves[i].after == t.moves[i].before && (t.moves[i].cause.MergeOf? || t.moves[i].cause.Push?)
    {
      MoveOkAncestor(t.moves[i]);
      AncestorAntisymmetric(t.moves[i].before, t.moves[i].after);
    }
  }

  // ---- No lost updates ----

  /** Replaying the successful updates of one branch, one at a time, on a tree. */
  function Replay(branch: string, tree: seq<TreeEntry>, moves: seq<Move>): Option<seq<TreeEntry>> {
    if moves == [] then Some(tree)
    else
      var m := moves[|moves| - 1];
      var before := Replay(branch, tree, moves[..|moves| - 1]);
      if m.branch != branch || before.None? then before
      else match m.cause
        case FileEdit(edit) => EditTree(before.value, edit)
        case Restore(source) => Some(source.tree)
        case MergeOf(_) => Some(m.after.tree)
        case Push => Some(m.after.tree)
  }

  lemma ReplayAppend(branch: string, tree: seq<TreeEntry>, s: State, t: State, m: Move, done: seq<Move>)
    requires MovedBy(s, t, m)
    requires branch in s.refs && Replay(branch, tree, done) == Some(s.refs[branch].tree)
    ensures branch in t.refs && Replay(branch, tree, done + [m]) == Some(t.refs[branch].tree)
  {
    assert (done + [m])[..|done|] == done;
  }

  lemma {:induction false} ReplayFrom(s: State, more: seq<Step>, branch: string)
    requires Inv(s) && branch in s.refs
    ensures var t := Run(s, more);
            Inv(t) && branch in t.refs && s.moves <= t.moves &&
            Replay(branch, s.refs[branch].tree, t.moves[|s.moves|..]) == Some(t.refs[branch].tree)
    decreases |more|
  {
    if more == [] {
      assert s.moves[|s.moves|..] == [];
    } else {
      var init, a := more[..|more| - 1], more[|more| - 1];
      ReplayFrom(s, init, branch);
      var t := Run(s, init);
      StepKeepsInv(t, a);
      var m := StepShape(t, a);
      if m.Some? {
        assert (t.moves + [m.value])[|s.moves|..] == t.moves[|s.moves|..] + [m.value];
        ReplayAppend(branch, s.refs[branch].tree, t, Next(t, a), m.value, t.moves[|s.moves|..]);
      }
    }
  }

  /** Serializability: whatever the interleaving, from any point of a run at which a branch exists,
      its head's tree is later the one obtained by running the successful updates since then one
      after another in the order they landed. */
  lemma HeadIsReplay(s: State, steps: seq<Step>, more: seq<Step>, branch: string)
    requires Initial(s) && branch in Run(s, steps).refs
    ensures var early, late := Run(s, steps), Run(Run(s, steps), more);
            branch in late.refs && early.moves <= late.moves &&
            Replay(branch, early.refs[branch].tree, late.moves[|early.moves|..]) == Some(late.refs[branch].tree)
  {
    RunKeepsInv(s, steps);
    ReplayFrom(Run(s, steps), more, branch);
  }

  // ---- Pull requests ----

  /** Merged and closed are terminal, and a pull request's target never changes. */
  lemma {:induction false} PrOutcomeIsFinal(s: State, steps: seq<Step>, pr: nat)
    requires pr in s.prs
    ensures pr in Run(s, steps).prs && Run(s, steps).prs[pr].targetSha == s.prs[pr].targetSha
    ensures s.prs[pr].state != Open ==> Run(s, steps).prs[pr].state == s.prs[pr].state
    decreases |steps|
  {
    if steps != [] {
      PrOutcomeIsFinal(s, steps[..|steps| - 1], pr);
    }
  }

  /** A recorded merge is true: someone approved it, and the target ref really moved from the
      pull request's target commit to the recorded commit, which descends from it. */
  lemma MergedMeansMoved(s: State, steps: seq<Step>, pr: nat)
    requires Initial(s)
    requires pr in Run(s, steps).prs && Run(s, steps).prs[pr].state.Merged?
    ensures var t := Run(s, steps);
            var target, merged := t.prs[pr].targetSha, t.prs[pr].state.mergedSha;
            Move(MAIN, target, merged, MergeOf(pr)) in t.moves && Ancestor(target, merged) &&
            MAIN in t.refs && Ancestor(merged, t.refs[MAIN]) && Approve in t.prs[pr].reviews
  {
    RunKeepsInv(s, steps);
  }

  /** Among the pull requests opened against one target commit, at most one is ever recorded
      as merged into something other than that commit. */
  lemma OneMergePerTarget(s: State, steps: seq<Step>, p: nat, q: nat)
    requires Initial(s)
    requires var t := Run(s, steps);
             p in t.prs && q in t.prs && t.prs[p].targetSha == t.prs[q].targetSha &&
             t.prs[p].state.Merged? && t.prs[p].state.mergedSha != t.prs[p].targetSha &&
             t.prs[q].state.Merged? && t.prs[q].state.mergedSha != t.prs[q].targetSha
    ensures p == q
  {
    RunKeepsInv(s, steps);
    var t := Run(s, steps);
    var target := t.prs[p].targetSha;
    var i :| 0 <= i < |t.moves| && t.moves[i] == Move(MAIN, target, t.prs[p].state.mergedSha, MergeOf(p));
    var j :| 0 <= j < |t.moves| && t.moves[j] == Move(MAIN, target, t.prs[q].state.mergedSha, MergeOf(q));
    LandedCommitsSurvive(s, steps);
    assert SameStart(t.moves[i], t.moves[j]) && SameStart(t.moves[j], t.moves[i]);
    assert i == j;
  }
}
