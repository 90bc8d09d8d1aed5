/** Exactly when a pull request is merged, and which commit it really merged. `MergePullRequest` of
    internal/biz/skill_usecase.go reads the row, the reviews and both refs in turn, and `Merge` of
    internal/gitengine/engine.go then reads the source ref again and moves the target. */
module PullRequests {
  import opened Order
  import opened RefProtocol
  import opened Requests

  // ---- The steps of one merge ----

  /** One request from its load of the pull request to its record. It loaded `row` and was asked for
      the target `expected`. */
  datatype Trail = Trail(
    req: nat, row: PullRequest, expected: Commit,
    load: nat, vote: nat, aim: nat, check: nat, read: nat, move: nat, record: nat)

  /** The request loads the open pull request. */
  ghost predicate Loads(run: seq<State>, steps: seq<Step>, m: Trail, pr: nat) {
    m.load < |steps| && m.load < |run| && steps[m.load] == MergeLoad(m.req, pr, m.expected) &&
    var t := run[m.load];
    m.req !in t.requests && pr in t.prs && t.prs[pr] == m.row && m.row.state == Open
  }

  /** The request then finds an approval and no request for changes. */
  ghost predicate Votes(run: seq<State>, steps: seq<Step>, m: Trail, pr: nat) {
    GoesOn(steps, m.load, m.vote, m.req, Opened(pr, m.row, m.expected)) && m.vote < |run| &&
    var t := run[m.vote];
    pr in t.prs && Approve in t.prs[pr].reviews && RequestChanges !in t.prs[pr].reviews
  }

  /** The request then finds the target where the pull request and the caller expect it. */
  ghost predicate Aims(run: seq<State>, steps: seq<Step>, m: Trail, pr: nat) {
    GoesOn(steps, m.vote, m.aim, m.req, Loaded(pr, m.row, m.expected)) &&
    HeadAt(run, m.aim, MAIN) == Some(m.expected) && m.row.targetSha == m.expected
  }

  /** The request then finds the source at the reviewed commit. */
  ghost predicate Checks(run: seq<State>, steps: seq<Step>, m: Trail, pr: nat) {
    GoesOn(steps, m.aim, m.check, m.req, TargetChecked(pr, m.row, m.expected)) &&
    HeadAt(run, m.check, m.row.sourceRef) == Some(m.row.sourceSha)
  }

  /** The request then reads the source again, at a descendant of the target. */
  ghost predicate Reads(run: seq<State>, steps: seq<Step>, m: Trail, pr: nat, sha: Commit) {
    GoesOn(steps, m.check, m.read, m.req, SourceChecked(pr, m.row, m.expected)) && steps[m.read].metadataOk &&
    HeadAt(run, m.read, m.row.sourceRef) == Some(sha) && Ancestor(m.expected, sha)
  }

  /** The request then finds the target unmoved and moves it. */
  ghost predicate Moves(run: seq<State>, steps: seq<Step>, m: Trail, pr: nat, sha: Commit) {
    GoesOn(steps, m.read, m.move, m.req, MergeReady(pr, m.expected, sha)) &&
    HeadAt(run, m.move, MAIN) == Some(m.expected)
  }

  /** The request then finds the pull request still open and records the merge. */
  ghost predicate Records(run: seq<State>, steps: seq<Step>, m: Trail, pr: nat, sha: Commit) {
    GoesOn(steps, m.move, m.record, m.req, Moved(pr, m.expected, sha)) && m.record < |run| &&
    var t := run[m.record];
    pr in t.prs && t.prs[pr].state == Open
  }

  ghost predicate Compares(run: seq<State>, steps: seq<Step>, m: Trail, pr: nat) {
    Loads(run, steps, m, pr) && Votes(run, steps, m, pr) && Aims(run, steps, m, pr) && Checks(run, steps, m, pr)
  }

  ghost predicate MergedBy(run: seq<State>, steps: seq<Step>, m: Trail, pr: nat, sha: Commit) {
    Compares(run, steps, m, pr) && Reads(run, steps, m, pr, sha) && Moves(run, steps, m, pr, sha) &&
    Records(run, steps, m, pr, sha)
  }

  // ---- Which step leads to which ----

  /** The reviews decide: a request goes on exactly when some review approves and none asks for
      changes, and is over otherwise. */
  lemma ReviewsDecide(t: State, req: nat)
    requires req in t.requests && t.requests[req].Opened? && t.requests[req].pr in t.prs
    ensures var x, u := t.requests[req], Next(t, MergeReviews(req));
            u.refs == t.refs && u.prs == t.prs && u.moves == t.moves &&
            u.requests == if Approve in t.prs[x.pr].reviews && RequestChanges !in t.prs[x.pr].reviews
                          then t.requests[req := Loaded(x.pr, x.row, x.expected)] else t.requests - {req}
  {
  }

  lemma OpenedBy(t: State, a: Step, req: nat, x: Request)
    requires x.Opened? && GetsTo(t, a, req, x)
    ensures a == MergeLoad(req, x.pr, x.expected) && req !in t.requests
    ensures x.pr in t.prs && t.prs[x.pr] == x.row && x.row.state == Open
  {
  }

  lemma LoadedBy(t: State, a: Step, req: nat, x: Request)
    requires x.Loaded? && GetsTo(t, a, req, x)
    ensures a == MergeReviews(req) && req in t.requests && t.requests[req] == Opened(x.pr, x.row, x.expected)
    ensures x.pr in t.prs && Approve in t.prs[x.pr].reviews && RequestChanges !in t.prs[x.pr].reviews
  {
  }

  lemma TargetCheckedBy(t: State, a: Step, req: nat, x: Request)
    requires x.TargetChecked? && GetsTo(t, a, req, x)
    ensures a == MergeCheckTarget(req) && req in t.requests && t.requests[req] == Loaded(x.pr, x.row, x.expected)
    ensures Head(t, MAIN) == Some(x.expected) && x.row.targetSha == x.expected
  {
  }

  lemma SourceCheckedBy(t: State, a: Step, req: nat, x: Request)
    requires x.SourceChecked? && GetsTo(t, a, req, x)
    ensures a == MergeCheckSource(req) && req in t.requests && t.requests[req] == TargetChecked(x.pr, x.row, x.expected)
    ensures Head(t, x.row.sourceRef) == Some(x.row.sourceSha)
  {
  }

  lemma ReadyBy(t: State, a: Step, req: nat, x: Request) returns (row: PullRequest)
    requires x.MergeReady? && GetsTo(t, a, req, x)
    ensures a == MergeRead(req, true) && req in t.requests && t.requests[req] == SourceChecked(x.pr, row, x.expected)
    ensures Head(t, row.sourceRef) == Some(x.source) && Ancestor(x.expected, x.source)
  {
    assert a.MergeRead? && a.req == req && t.requests[req].SourceChecked?;
    row := t.requests[req].row;
  }

  lemma MovedFrom(t: State, a: Step, req: nat, x: Request)
    requires x.Moved? && GetsTo(t, a, req, x)
    ensures a == MergeMove(req) && req in t.requests && t.requests[req] == MergeReady(x.pr, x.expected, x.source)
    ensures Head(t, MAIN) == Some(x.expected)
  {
  }

  lemma RecordedBy(t: State, a: Step, pr: nat) returns (req: nat)
    requires pr in Next(t, a).prs && Next(t, a).prs[pr].state.Merged? && !(pr in t.prs && t.prs[pr].state.Merged?)
    ensures a == MergeRecord(req) && req in t.requests && t.requests[req].Moved? && t.requests[req].pr == pr
    ensures pr in t.prs && t.prs[pr].state == Open && Next(t, a).prs[pr].state.mergedSha == t.requests[req].source
  {
    assert a.MergeRecord?;
    req := a.req;
  }

  // ---- From the record back to the load ----

  ghost predicate Recorded(run: seq<State>, n: nat, pr: nat, sha: Commit) {
    n < |run| && pr in run[n].prs && run[n].prs[pr].state == Merged(sha)
  }

  lemma MergedStays(t: State, a: Step, pr: nat)
    requires pr in t.prs && t.prs[pr].state.Merged?
    ensures pr in Next(t, a).prs && Next(t, a).prs[pr].state == t.prs[pr].state
  {
  }

  lemma {:induction false} RecordedLater(run: seq<State>, steps: seq<Step>, i: nat, n: nat, pr: nat, sha: Commit)
    requires Follows(run, steps) && Recorded(run, i, pr, sha) && i <= n <= |steps|
    ensures Recorded(run, n, pr, sha)
    decreases n
  {
    if i < n {
      RecordedLater(run, steps, i, n - 1, pr, sha);
      assert StepAt(run, steps, n - 1);
      MergedStays(run[n - 1], steps[n - 1], pr);
    }
  }

  lemma {:induction false} FirstRecorded(run: seq<State>, steps: seq<Step>, n: nat, pr: nat, sha: Commit)
    returns (d: nat)
    requires Follows(run, steps) && run[0].prs == map[] && Recorded(run, n, pr, sha)
    ensures d < n && !Recorded(run, d, pr, sha) && Recorded(run, d + 1, pr, sha)
    decreases n
  {
    if Recorded(run, n - 1, pr, sha) {
      d := FirstRecorded(run, steps, n - 1, pr, sha);
    } else {
      d := n - 1;
    }
  }

  /** The step that recorded a merge, and the request whose it is. */
  lemma RecordStep(run: seq<State>, steps: seq<Step>, n: nat, pr: nat, sha: Commit)
    returns (d: nat, req: nat, x: Request)
    requires Follows(run, steps) && run[0].prs == map[] && Recorded(run, n, pr, sha)
    ensures d < n && steps[d] == MergeRecord(req) && x.Moved? && x.pr == pr && x.source == sha && Holds(run, d, req, x)
    ensures pr in run[d].prs && run[d].prs[pr].state == Open
  {
    d := FirstRecorded(run, steps, n, pr, sha);
    var t := run[d];
    assert StepAt(run, steps, d);
    if pr in t.prs && t.prs[pr].state.Merged? {
      MergedStays(t, steps[d], pr);
    }
    req := RecordedBy(t, steps[d], pr);
    x := t.requests[req];
  }

  lemma BackToCheck(run: seq<State>, steps: seq<Step>, n: nat, req: nat, x: Request) returns (m: Trail)
    requires Follows(run, steps) && Initial(run[0]) && x.SourceChecked? && Holds(run, n, req, x)
    ensures m.req == req && m.row == x.row && m.expected == x.expected && Compares(run, steps, m, x.pr)
    ensures m.check < n && Waits(steps, m.check, n, req, x)
  {
    var check := Origin(run, steps, n, req, x);
    SourceCheckedBy(run[check], steps[check], req, x);
    var x3 := TargetChecked(x.pr, x.row, x.expected);
    var aim := Origin(run, steps, check, req, x3);
    TargetCheckedBy(run[aim], steps[aim], req, x3);
    var x2 := Loaded(x.pr, x.row, x.expected);
    var vote := Origin(run, steps, aim, req, x2);
    LoadedBy(run[vote], steps[vote], req, x2);
    var x1 := Opened(x.pr, x.row, x.expected);
    var load := Origin(run, steps, vote, req, x1);
    OpenedBy(run[load], steps[load], req, x1);
    m := Trail(req, x.row, x.expected, load, vote, aim, check, 0, 0, 0);
  }

  /** The trail up to the comparison does not depend on what follows. */
  lemma ComparesAlike(run: seq<State>, steps: seq<Step>, m: Trail, read: nat, move: nat, record: nat, pr: nat)
    requires Compares(run, steps, m, pr)
    ensures Compares(run, steps, m.(read := read, move := move, record := record), pr)
  {
  }

  lemma ReadOf(run: seq<State>, steps: seq<Step>, n: nat, req: nat, x: Request) returns (read: nat, row: PullRequest)
    requires Follows(run, steps) && Initial(run[0]) && x.MergeReady? && Holds(run, n, req, x)
    ensures read < n && steps[read] == MergeRead(req, true) && Waits(steps, read, n, req, x)
    ensures Holds(run, read, req, SourceChecked(x.pr, row, x.expected))
    ensures HeadAt(run, read, row.sourceRef) == Some(x.source) && Ancestor(x.expected, x.source)
  {
    read := Origin(run, steps, n, req, x);
    row := ReadyBy(run[read], steps[read], req, x);
  }

  lemma MoveOf(run: seq<State>, steps: seq<Step>, n: nat, req: nat, x: Request) returns (move: nat)
    requires Follows(run, steps) && Initial(run[0]) && x.Moved? && Holds(run, n, req, x)
    ensures move < n && steps[move] == MergeMove(req) && Waits(steps, move, n, req, x)
    ensures Holds(run, move, req, MergeReady(x.pr, x.expected, x.source))
    ensures HeadAt(run, move, MAIN) == Some(x.expected)
  {
    move := Origin(run, steps, n, req, x);
    MovedFrom(run[move], steps[move], req, x);
  }

  lemma BackToRead(run: seq<State>, steps: seq<Step>, n: nat, req: nat, x: Request) returns (m: Trail)
    requires Follows(run, steps) && Initial(run[0]) && x.MergeReady? && Holds(run, n, req, x)
    ensures m.req == req && m.expected == x.expected && Compares(run, steps, m, x.pr) &&
            Reads(run, steps, m, x.pr, x.source)
    ensures m.read < n && Waits(steps, m.read, n, req, x)
  {
    var read, row := ReadOf(run, steps, n, req, x);
    var k := BackToCheck(run, steps, read, req, SourceChecked(x.pr, row, x.expected));
    ComparesAlike(run, steps, k, read, 0, 0, x.pr);
    m := k.(read := read, move := 0, record := 0);
  }

  lemma BackToLoad(run: seq<State>, steps: seq<Step>, d: nat, req: nat, x: Request) returns (m: Trail)
    requires Follows(run, steps) && Initial(run[0]) && d < |steps| && steps[d] == MergeRecord(req) && x.Moved? &&
             Holds(run, d, req, x)
    requires x.pr in run[d].prs && run[d].prs[x.pr].state == Open
    ensures MergedBy(run, steps, m, x.pr, x.source)
  {
    var move := MoveOf(run, steps, d, req, x);
    var k := BackToRead(run, steps, move, req, MergeReady(x.pr, x.expected, x.source));
    ComparesAlike(run, steps, k, k.read, move, d, x.pr);
    m := k.(move := move, record := d);
    assert Reads(run, steps, m, x.pr, x.source);
  }

  // ---- From the load on to the record ----

  ghost predicate Leads(t: State, a: Step, req: nat, y: Request) {
    req in Next(t, a).requests && Next(t, a).requests[req] == y
  }

  /** The step after which the request stands at `x` comes, and leads on to `y`. */
  lemma Advance(run: seq<State>, steps: seq<Step>, i: nat, j: nat, req: nat, x: Request, y: Request)
    requires Follows(run, steps) && GoesOn(steps, i, j, req, x) && Holds(run, i + 1, req, x)
    requires Holds(run, j, req, x) ==> Leads(run[j], steps[j], req, y)
    ensures Holds(run, j + 1, req, y)
  {
    WaitingHolds(run, steps, i, j, req, x);
    assert StepAt(run, steps, j);
  }

  lemma TargetPasses(t: State, req: nat, x: Request)
    requires x.Loaded? && req in t.requests && t.requests[req] == x
    requires Head(t, MAIN) == Some(x.expected) && x.row.targetSha == x.expected
    ensures Leads(t, MergeCheckTarget(req), req, TargetChecked(x.pr, x.row, x.expected))
  {
  }

  lemma SourcePasses(t: State, req: nat, x: Request)
    requires x.TargetChecked? && req in t.requests && t.requests[req] == x
    requires Head(t, x.row.sourceRef) == Some(x.row.sourceSha)
    ensures Leads(t, MergeCheckSource(req), req, SourceChecked(x.pr, x.row, x.expected))
  {
  }

  lemma ReadPasses(t: State, req: nat, x: Request, sha: Commit)
    requires x.SourceChecked? && req in t.requests && t.requests[req] == x
    requires Head(t, x.row.sourceRef) == Some(sha) && Ancestor(x.expected, sha)
    ensures Leads(t, MergeRead(req, true), req, MergeReady(x.pr, x.expected, sha))
  {
  }

  lemma MovePasses(t: State, req: nat, x: Request)
    requires x.MergeReady? && req in t.requests && t.requests[req] == x && Head(t, MAIN) == Some(x.expected)
    ensures Leads(t, MergeMove(req), req, Moved(x.pr, x.expected, x.source))
  {
  }

  lemma RecordPasses(t: State, req: nat, x: Request)
    requires x.Moved? && req in t.requests && t.requests[req] == x && x.pr in t.prs
    requires t.prs[x.pr].state == Open && t.prs[x.pr].targetSha == x.expected
    ensures x.pr in Next(t, MergeRecord(req)).prs && Next(t, MergeRecord(req)).prs[x.pr].state == Merged(x.source)
  {
  }

  lemma LoadsThrough(run: seq<State>, steps: seq<Step>, m: Trail, pr: nat)
    requires Follows(run, steps) && Loads(run, steps, m, pr)
    ensures Holds(run, m.load + 1, m.req, Opened(pr, m.row, m.expected))
  {
    assert StepAt(run, steps, m.load);
  }

  lemma VotesThrough(run: seq<State>, steps: seq<Step>, m: Trail, pr: nat)
    requires Follows(run, steps) && Holds(run, m.load + 1, m.req, Opened(pr, m.row, m.expected)) &&
             Votes(run, steps, m, pr)
    ensures Holds(run, m.vote + 1, m.req, Loaded(pr, m.row, m.expected))
  {
    var x, y := Opened(pr, m.row, m.expected), Loaded(pr, m.row, m.expected);
    if Holds(run, m.vote, m.req, x) {
      ReviewsDecide(run[m.vote], m.req);
      assert Leads(run[m.vote], steps[m.vote], m.req, y);
    }
    Advance(run, steps, m.load, m.vote, m.req, x, y);
  }

  lemma AimsThrough(run: seq<State>, steps: seq<Step>, m: Trail, pr: nat)
    requires Follows(run, steps) && Holds(run, m.vote + 1, m.req, Loaded(pr, m.row, m.expected)) &&
             Aims(run, steps, m, pr)
    ensures Holds(run, m.aim + 1, m.req, TargetChecked(pr, m.row, m.expected))
  {
    var x, y := Loaded(pr, m.row, m.expected), TargetChecked(pr, m.row, m.expected);
    if Holds(run, m.aim, m.req, x) {
      TargetPasses(run[m.aim], m.req, x);
    }
    Advance(run, steps, m.vote, m.aim, m.req, x, y);
  }

  lemma ChecksThrough(run: seq<State>, steps: seq<Step>, m: Trail, pr: nat)
    requires Follows(run, steps) && Holds(run, m.aim + 1, m.req, TargetChecked(pr, m.row, m.expected)) &&
             Checks(run, steps, m, pr)
    ensures Holds(run, m.check + 1, m.req, SourceChecked(pr, m.row, m.expected))
  {
    var x, y := TargetChecked(pr, m.row, m.expected), SourceChecked(pr, m.row, m.expected);
    if Holds(run, m.check, m.req, x) {
      SourcePasses(run[m.check], m.req, x);
    }
    Advance(run, steps, m.aim, m.check, m.req, x, y);
  }

  lemma ReadsThrough(run: seq<State>, steps: seq<Step>, m: Trail, pr: nat, sha: Commit)
    requires Follows(run, steps) && Holds(run, m.check + 1, m.req, SourceChecked(pr, m.row, m.expected)) &&
             Reads(run, steps, m, pr, sha)
    ensures Holds(run, m.read + 1, m.req, MergeReady(pr, m.expected, sha))
  {
    var x, y := SourceChecked(pr, m.row, m.expected), MergeReady(pr, m.expected, sha);
    if Holds(run, m.read, m.req, x) {
      ReadPasses(run[m.read], m.req, x, sha);
    }
    Advance(run, steps, m.check, m.read, m.req, x, y);
  }

  lemma MovesThrough(run: seq<State>, steps: seq<Step>, m: Trail, pr: nat, sha: Commit)
    requires Follows(run, steps) && Holds(run, m.read + 1, m.req, MergeReady(pr, m.expected, sha)) &&
             Moves(run, steps, m, pr, sha)
    ensures Holds(run, m.move + 1, m.req, Moved(pr, m.expected, sha))
  {
    var x, y := MergeReady(pr, m.expected, sha), Moved(pr, m.expected, sha);
    if Holds(run, m.move, m.req, x) {
      MovePasses(run[m.move], m.req, x);
    }
    Advance(run, steps, m.read, m.move, m.req, x, y);
  }

  lemma RecordsThrough(run: seq<State>, steps: seq<Step>, m: Trail, pr: nat, sha: Commit)
    requires Follows(run, steps) && Holds(run, m.move + 1, m.req, Moved(pr, m.expected, sha)) &&
             Records(run, steps, m, pr, sha)
    requires run[m.record].prs[pr].targetSha == m.expected
    ensures Recorded(run, |steps|, pr, sha)
  {
    WaitingHolds(run, steps, m.move, m.record, m.req, Moved(pr, m.expected, sha));
    RecordPasses(run[m.record], m.req, Moved(pr, m.expected, sha));
    assert StepAt(run, steps, m.record);
    RecordedLater(run, steps, m.record + 1, |steps|, pr, sha);
  }

  lemma TargetStays(run: seq<State>, steps: seq<Step>, m: Trail, pr: nat, sha: Commit)
    requires Follows(run, steps) && MergedBy(run, steps, m, pr, sha)
    ensures run[m.record].prs[pr].targetSha == m.expected
  {
    RowStays(run, steps, m.load, m.record, pr);
  }

  lemma TrailEndsMerged(run: seq<State>, steps: seq<Step>, m: Trail, pr: nat, sha: Commit)
    requires Follows(run, steps) && MergedBy(run, steps, m, pr, sha)
    ensures Recorded(run, |steps|, pr, sha)
  {
    LoadsThrough(run, steps, m, pr);
    VotesThrough(run, steps, m, pr);
    AimsThrough(run, steps, m, pr);
    ChecksThrough(run, steps, m, pr);
    ReadsThrough(run, steps, m, pr, sha);
    MovesThrough(run, steps, m, pr, sha);
    TargetStays(run, steps, m, pr, sha);
    RecordsThrough(run, steps, m, pr, sha);
  }

  /** In every run, a pull request ends merged into a commit exactly when some request loaded it open,
      found an approval and no request for changes, found target and source as expected, read that
      commit from the source, found the target unmoved when it moved it, and found the pull request
      open when it recorded the merge, without stopping in between. */
  lemma MergedExactly(run: seq<State>, steps: seq<Step>, pr: nat, sha: Commit)
    requires Follows(run, steps) && Initial(run[0])
    ensures pr in run[|steps|].prs && run[|steps|].prs[pr].state == Merged(sha) <==>
            exists m: Trail :: MergedBy(run, steps, m, pr, sha)
  {
    if pr in run[|steps|].prs && run[|steps|].prs[pr].state == Merged(sha) {
      var d, req, x := RecordStep(run, steps, |steps|, pr, sha);
      var m := BackToLoad(run, steps, d, req, x);
    }
    if m: Trail :| MergedBy(run, steps, m, pr, sha) {
      TrailEndsMerged(run, steps, m, pr, sha);
    }
  }

  /** What a pull request merged descends from the reviewed commit, and is that commit exactly when
      the source branch did not move between the comparison and the second read of the request that
      merged it. */
  lemma MergedIsReviewedExactly(run: seq<State>, steps: seq<Step>, pr: nat) returns (m: Trail)
    requires Follows(run, steps) && Initial(run[0]) && pr in run[|steps|].prs && run[|steps|].prs[pr].state.Merged?
    ensures var row := run[|steps|].prs[pr];
            MergedBy(run, steps, m, pr, row.state.mergedSha) && RowOf(run[|steps|], pr, m.row) &&
            Ancestor(row.sourceSha, row.state.mergedSha) &&
            (row.state.mergedSha == row.sourceSha <==> Still(run, m.check, m.read, row.sourceRef))
  {
    var row := run[|steps|].prs[pr];
    MergedExactly(run, steps, pr, row.state.mergedSha);
    m :| MergedBy(run, steps, m, pr, row.state.mergedSha);
    RowStays(run, steps, m.load, |steps|, pr);
    ReadsDescend(run, steps, m, pr, row.state.mergedSha);
  }

  lemma ReadsDescend(run: seq<State>, steps: seq<Step>, m: Trail, pr: nat, sha: Commit)
    requires Follows(run, steps) && Inv(run[0]) && Checks(run, steps, m, pr) && Reads(run, steps, m, pr, sha)
    ensures Ancestor(m.row.sourceSha, sha)
    ensures sha == m.row.sourceSha <==> Still(run, m.check, m.read, m.row.sourceRef)
  {
    HeadsDescend(run, steps, m.check, m.read, m.row.sourceRef);
    BackMeansStill(run, steps, m.check, m.read, m.row.sourceRef);
  }

  lemma CloseIsFinal(t: State, pr: nat, more: seq<Step>)
    requires pr in t.prs && t.prs[pr].state == Open
    ensures pr in Run(Next(t, ClosePr(pr)), more).prs && Run(Next(t, ClosePr(pr)), more).prs[pr].state == Closed
  {
    PrOutcomeIsFinal(Next(t, ClosePr(pr)), more, pr);
  }

  /** A close between the ref update and the record wins: the target has moved, the pull request
      ends closed and is never recorded as merged. */
  lemma MovedButClosed(s: State, steps: seq<Step>, req: nat, more: seq<Step>)
    requires Initial(s)
    requires var t := Run(s, steps);
             req in t.requests && t.requests[req].Moved? && t.requests[req].pr in t.prs &&
             t.prs[t.requests[req].pr].state == Open
    ensures var t := Run(s, steps);
            var pr, x := t.requests[req].pr, t.requests[req];
            var u := Run(Next(t, ClosePr(pr)), more);
            pr in u.prs && u.prs[pr].state == Closed && Move(MAIN, x.expected, x.source, MergeOf(pr)) in t.moves
  {
    var t := Run(s, steps);
    CloseIsFinal(t, t.requests[req].pr, more);
    RunKeepsInv(s, steps);
    assert RequestOk(t, t.requests[req]);
  }

  // ---- A run in which the target moved and the pull request ended closed ----

  const BASE := Commit([], [], "base")
  const TOPIC := Commit([], [BASE], "topic")
  const START := State(map[MAIN := BASE, "topic" := TOPIC], map[], map[], [])

  function Pr(state: PrState, reviews: seq<Verdict>): PullRequest {
    PullRequest("topic", TOPIC, BASE, state, reviews)
  }

  const LOADED := Pr(Open, [Approve])
  const APPROVED := START.(prs := map[0 := LOADED])
  const CHECKED := APPROVED.(requests := map[1 := SourceChecked(0, LOADED, BASE)])
  const MERGED := State(
    map[MAIN := TOPIC, "topic" := TOPIC], map[1 := Moved(0, BASE, TOPIC)], map[0 := LOADED],
    [Move(MAIN, BASE, TOPIC, MergeOf(0))])

  lemma Extend(steps: seq<Step>, a: Step, t: State, u: State) returns (longer: seq<Step>)
    requires Run(START, steps) == t && Next(t, a) == u
    ensures Run(START, longer) == u
  {
    longer := steps + [a];
    assert longer[..|longer| - 1] == steps;
  }

  lemma ApprovedRun() returns (steps: seq<Step>)
    ensures Run(START, steps) == APPROVED
  {
    var asked := START.(prs := map[0 := Pr(Open, [])]);
    steps := Extend([], OpenPr(0, "topic", TOPIC, BASE), START, asked);
    assert [] + [Approve] == [Approve];
    assert asked.prs[0].(reviews := [Approve]) == LOADED;
    assert asked.prs[0 := LOADED] == APPROVED.prs;
    steps := Extend(steps, Review(0, Approve), asked, APPROVED);
  }

  lemma LoadedRun() returns (steps: seq<Step>)
    ensures Run(START, steps) == APPROVED.(requests := map[1 := Loaded(0, LOADED, BASE)])
  {
    steps := ApprovedRun();
    var s3 := APPROVED.(requests := map[1 := Opened(0, LOADED, BASE)]);
    steps := Extend(steps, MergeLoad(1, 0, BASE), APPROVED, s3);
    steps := Extend(steps, MergeReviews(1), s3, APPROVED.(requests := map[1 := Loaded(0, LOADED, BASE)]));
  }

  const TARGETED := APPROVED.(requests := map[1 := TargetChecked(0, LOADED, BASE)])

  lemma TargetedRun() returns (steps: seq<Step>)
    ensures Run(START, steps) == TARGETED
  {
    steps := LoadedRun();
    steps := Extend(steps, MergeCheckTarget(1), APPROVED.(requests := map[1 := Loaded(0, LOADED, BASE)]), TARGETED);
  }

  lemma CheckedRun() returns (steps: seq<Step>)
    ensures Run(START, steps) == CHECKED
  {
    steps := TargetedRun();
    steps := Extend(steps, MergeCheckSource(1), TARGETED, CHECKED);
  }

  const READY := APPROVED.(requests := map[1 := MergeReady(0, BASE, TOPIC)])

  lemma ReadyRun() returns (steps: seq<Step>)
    ensures Run(START, steps) == READY
  {
    steps := CheckedRun();
    assert BASE in TOPIC.parents && Ancestor(BASE, BASE);
    assert Ancestor(BASE, TOPIC);
    steps := Extend(steps, MergeRead(1, true), CHECKED, READY);
  }

  lemma MergedRun() returns (steps: seq<Step>)
    ensures Run(START, steps) == MERGED
  {
    steps := ReadyRun();
    assert MERGED.refs == READY.refs[MAIN := TOPIC];
    assert MERGED.requests == READY.requests[1 := Moved(0, BASE, TOPIC)];
    steps := Extend(steps, MergeMove(1), READY, MERGED);
  }

  lemma ClosedAfterMerge() returns (steps: seq<Step>)
    ensures Initial(START)
    ensures Head(Run(START, steps), MAIN) == Some(TOPIC) && Run(START, steps).prs == map[0 := Pr(Closed, [Approve])]
  {
    steps := MergedRun();
    var closed := MERGED.(prs := map[0 := Pr(Closed, [Approve])]);
    steps := Extend(steps, ClosePr(0), MERGED, closed);
    steps := Extend(steps, MergeRecord(1), closed, Finish(closed, 1));
  }

  // ---- A run that merges a commit nobody reviewed ----

  const LATER := Commit([], [TOPIC], "later")
  const PUSHED := CHECKED.(refs := map[MAIN := BASE, "topic" := LATER], moves := [Move("topic", TOPIC, LATER, Push)])
  const UNREVIEWED := PUSHED.(requests := map[1 := MergeReady(0, BASE, LATER)])

  lemma PushedRun() returns (steps: seq<Step>)
    ensures Run(START, steps) == PUSHED
  {
    steps := CheckedRun();
    assert TOPIC in LATER.parents && Ancestor(TOPIC, TOPIC);
    assert CHECKED.refs["topic" := LATER] == PUSHED.refs;
    steps := Extend(steps, FastForward("topic", LATER), CHECKED, PUSHED);
  }

  lemma UnreviewedRun() returns (steps: seq<Step>)
    ensures Run(START, steps) == UNREVIEWED
  {
    steps := PushedRun();
    assert BASE in TOPIC.parents && Ancestor(BASE, BASE) && Ancestor(BASE, TOPIC);
    assert TOPIC in LATER.parents && Ancestor(BASE, LATER);
    assert PUSHED.requests[1 := MergeReady(0, BASE, LATER)] == UNREVIEWED.requests;
    steps := Extend(steps, MergeRead(1, true), PUSHED, UNREVIEWED);
  }

  lemma UnreviewedMoves() returns (steps: seq<Step>, moved: State)
    ensures Run(START, steps) == moved && moved.prs == UNREVIEWED.prs && Head(moved, MAIN) == Some(LATER)
    ensures 1 in moved.requests && moved.requests[1] == Moved(0, BASE, LATER)
  {
    steps := UnreviewedRun();
    moved := Next(UNREVIEWED, MergeMove(1));
    steps := Extend(steps, MergeMove(1), UNREVIEWED, moved);
  }

  /** A push to the source branch between the comparison and the second read is merged unreviewed. */
  lemma MergesUnreviewed() returns (steps: seq<Step>)
    ensures Initial(START)
    ensures var t := Run(START, steps);
            0 in t.prs && t.prs[0].state == Merged(LATER) && t.prs[0].sourceSha == TOPIC && TOPIC != LATER &&
            Head(t, MAIN) == Some(LATER)
  {
    var moved;
    steps, moved := UnreviewedMoves();
    steps := Extend(steps, MergeRecord(1), moved, Next(moved, MergeRecord(1)));
  }
}
