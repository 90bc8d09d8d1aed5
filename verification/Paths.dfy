/** Slash-separated paths: strings.Split, strings.Join, splitPath. */
module Paths {

  /** strings.Split(s, "/"). */
  function Split(s: string): (r: seq<string>)
    ensures r != []
    ensures forall i :: 0 <= i < |r| ==> '/' !in r[i]
  {
    if s == "" then [""]
    else
      var rest := Split(s[1..]);
      if s[0] == '/' then [""] + rest else [[s[0]] + rest[0]] + rest[1..]
  }

  /** strings.Join(parts, "/"). */
  function Join(parts: seq<string>): string {
    if parts == [] then ""
    else if |parts| == 1 then parts[0]
    else parts[0] + "/" + Join(parts[1..])
  }

  lemma {:induction false} SplitNoSlash(s: string)
    requires '/' !in s
    ensures Split(s) == [s]
  {
    if s != "" {
      assert s == [s[0]] + s[1..];
      SplitNoSlash(s[1..]);
    }
  }

  lemma {:induction false} SplitConcat(a: string, b: string)
    ensures Split(a + "/" + b) == Split(a) + Split(b)
  {
    var s := a + "/" + b;
    if a == "" {
      assert s[1..] == b;
    } else {
      assert s[1..] == a[1..] + "/" + b;
      SplitConcat(a[1..], b);
    }
  }

  /** Splitting undoes joining when no part holds a separator. */
  lemma {:induction false} SplitJoin(parts: seq<string>)
    requires parts != [] && forall i :: 0 <= i < |parts| ==> '/' !in parts[i]
    ensures Split(Join(parts)) == parts
  {
    SplitNoSlash(parts[0]);
    if |parts| > 1 {
      SplitJoin(parts[1..]);
      SplitConcat(parts[0], Join(parts[1..]));
      assert parts == [parts[0]] + parts[1..];
    }
  }

  /** Joining undoes splitting, for every string. */
  lemma {:induction false} JoinSplit(s: string)
    ensures Join(Split(s)) == s
  {
    if s != "" {
      JoinSplit(s[1..]);
      var rest := Split(s[1..]);
      assert s == [s[0]] + s[1..];
      if s[0] == '/' {
        assert ([""] + rest)[1..] == rest;
      } else if |rest| > 1 {
        var r := [[s[0]] + rest[0]] + rest[1..];
        assert r[1..] == rest[1..];
      }
    }
  }

  function NonEmpty(parts: seq<string>): (r: seq<string>)
    ensures forall x :: x in r <==> x in parts && x != ""
  {
    if parts == [] then []
    else if parts[0] == "" then NonEmpty(parts[1..])
    else [parts[0]] + NonEmpty(parts[1..])
  }

  lemma {:induction false} NonEmptyConcat(a: seq<string>, b: seq<string>)
    ensures NonEmpty(a + b) == NonEmpty(a) + NonEmpty(b)
  {
    if a == [] {
      assert a + b == b;
    } else {
      assert (a + b)[1..] == a[1..] + b;
      NonEmptyConcat(a[1..], b);
    }
  }

  lemma {:induction false} NonEmptyIdentity(parts: seq<string>)
    requires "" !in parts
    ensures NonEmpty(parts) == parts
  {
    if parts != [] {
      NonEmptyIdentity(parts[1..]);
    }
  }

  /** The segments of a path: what splitPath returns. */
  function Segments(p: string): seq<string> {
    NonEmpty(Split(p))
  }

  function TrimLeft(p: string): string {
    if p != "" && p[0] == '/' then TrimLeft(p[1..]) else p
  }

  function TrimRight(p: string): string {
    if p != "" && p[|p| - 1] == '/' then TrimRight(p[..|p| - 1]) else p
  }

  lemma {:induction false} TrimLeftKeepsSegments(p: string)
    ensures Segments(TrimLeft(p)) == Segments(p)
  {
    if p != "" && p[0] == '/' {
      TrimLeftKeepsSegments(p[1..]);
    }
  }

  lemma {:induction false} TrimRightKeepsSegments(p: string)
    ensures Segments(TrimRight(p)) == Segments(p)
    decreases |p|
  {
    if p != "" && p[|p| - 1] == '/' {
      var front := p[..|p| - 1];
      TrimRightKeepsSegments(front);
      assert p == front + "/" + "";
      SplitConcat(front, "");
      NonEmptyConcat(Split(front), [""]);
    }
  }

  /** splitPath. Trimming slashes first makes no difference: empty segments are dropped
      anyway, so leading, trailing and doubled slashes all collapse. */
  method SplitPath(p: string) returns (out: seq<string>)
    ensures out == Segments(p)
  {
    var trimmed := TrimRight(TrimLeft(p));
    TrimLeftKeepsSegments(p);
    TrimRightKeepsSegments(TrimLeft(p));
    var parts := Split(trimmed);
    out := [];
    for i := 0 to |parts|
      invariant out + NonEmpty(parts[i..]) == NonEmpty(parts)
    {
      if parts[i] != "" {
        out := out + [parts[i]];
      }
    }
  }

  /** The path guards of CreateFile, UpdateFile and DeleteFile (not empty, no leading
      slash) make the list of segments non-empty. */
  lemma GuardedPathHasSegment(p: string)
    requires p != "" && p[0] != '/'
    ensures Segments(p) != []
  {
    var parts := Split(p);
    assert parts[0] in parts && parts[0] != "";
    assert parts[0] in NonEmpty(parts);
  }

  /** Joining segments and splitting again gives the same segments. */
  lemma SegmentsJoin(parts: seq<string>)
    requires parts != [] && forall i :: 0 <= i < |parts| ==> parts[i] != "" && '/' !in parts[i]
    ensures Segments(Join(parts)) == parts
  {
    SplitJoin(parts);
    NonEmptyIdentity(parts);
  }

  // ---- path.Clean on paths that do not start with a slash ----

  /** One segment of path.Clean: drop "" and ".", let ".." remove a real parent. */
  function CleanStep(stack: seq<string>, seg: string): seq<string> {
    if seg == "" || seg == "." then stack
    else if seg == ".." && stack != [] && stack[|stack| - 1] != ".." then stack[..|stack| - 1]
    else stack + [seg]
  }

  function CleanFrom(stack: seq<string>, segs: seq<string>): seq<string>
    decreases |segs|
  {
    if segs == [] then stack else CleanFrom(CleanStep(stack, segs[0]), segs[1..])
  }

  function CleanSegments(p: string): seq<string> {
    CleanFrom([], Split(p))
  }

  function Clean(p: string): string {
    if CleanSegments(p) == [] then "." else Join(CleanSegments(p))
  }

  /** No empty or "." segment, and ".." only at the front. */
  ghost predicate Cleaned(segs: seq<string>) {
    (forall i :: 0 <= i < |segs| ==> segs[i] != "" && segs[i] != "." && '/' !in segs[i]) &&
    (forall i :: 0 < i < |segs| && segs[i] == ".." ==> segs[i - 1] == "..")
  }

  lemma {:induction false} CleanFromIsCleaned(stack: seq<string>, segs: seq<string>)
    requires Cleaned(stack) && forall i :: 0 <= i < |segs| ==> '/' !in segs[i]
    ensures Cleaned(CleanFrom(stack, segs))
    decreases |segs|
  {
    if segs != [] {
      CleanFromIsCleaned(CleanStep(stack, segs[0]), segs[1..]);
    }
  }

  lemma {:induction false} CleanFromFixed(stack: seq<string>, segs: seq<string>)
    requires Cleaned(stack + segs)
    ensures CleanFrom(stack, segs) == stack + segs
    decreases |segs|
  {
    if segs == [] {
      assert stack + segs == stack;
    } else {
      var all := stack + segs;
      assert all[|stack|] == segs[0];
      assert stack != [] ==> all[|stack| - 1] == stack[|stack| - 1];
      assert CleanStep(stack, segs[0]) == stack + [segs[0]];
      assert stack + [segs[0]] + segs[1..] == all;
      CleanFromFixed(stack + [segs[0]], segs[1..]);
    }
  }

  /** Joined clean segments are a fixed point of path.Clean, and splitting them gives them back. */
  lemma CleanedPath(segs: seq<string>)
    requires Cleaned(segs) && segs != []
    ensures Clean(Join(segs)) == Join(segs)
    ensures Split(Join(segs)) == segs && Segments(Join(segs)) == segs
  {
    SplitJoin(segs);
    SegmentsJoin(segs);
    CleanFromFixed([], segs);
    assert [] + segs == segs;
  }

  /** path.Clean is idempotent, and unless it gives "." its result splits into clean segments. */
  lemma CleanIdempotent(p: string)
    ensures Cleaned(CleanSegments(p))
    ensures Clean(Clean(p)) == Clean(p)
    ensures Clean(p) != "." ==> Split(Clean(p)) == CleanSegments(p)
  {
    CleanFromIsCleaned([], Split(p));
    if CleanSegments(p) != [] {
      CleanedPath(CleanSegments(p));
    } else {
      SplitNoSlash(".");
      assert CleanFrom([], ["."]) == CleanFrom([], []) == [];
    }
  }

  // ---- What a relative path means ----

  /** One segment of a walk from a directory; the root is its own parent. */
  function Into(dir: seq<string>, seg: string): seq<string> {
    if seg == "" || seg == "." then dir
    else if seg == ".." then (if dir == [] then [] else dir[..|dir| - 1])
    else dir + [seg]
  }

  /** Where a path leads from a directory. */
  function Walk(dir: seq<string>, segs: seq<string>): seq<string>
    decreases |segs|
  {
    if segs == [] then dir else Into(Walk(dir, segs[..|segs| - 1]), segs[|segs| - 1])
  }

  lemma WalkSnoc(dir: seq<string>, segs: seq<string>, seg: string)
    ensures Walk(dir, segs + [seg]) == Into(Walk(dir, segs), seg)
  {
    assert (segs + [seg])[..|segs|] == segs;
  }

  lemma {:induction false} WalkAppend(dir: seq<string>, a: seq<string>, b: seq<string>)
    ensures Walk(dir, a + b) == Walk(Walk(dir, a), b)
    decreases |b|
  {
    if b == [] {
      assert a + b == a;
    } else {
      var init, last := b[..|b| - 1], b[|b| - 1];
      assert a + b == (a + init) + [last];
      WalkSnoc(dir, a + init, last);
      WalkAppend(dir, a, init);
    }
  }

  lemma CleanStepKeepsMeaning(dir: seq<string>, stack: seq<string>, seg: string)
    requires Cleaned(stack)
    ensures Walk(dir, CleanStep(stack, seg)) == Into(Walk(dir, stack), seg)
  {
    if seg == ".." && stack != [] && stack[|stack| - 1] != ".." {
      var init, last := stack[..|stack| - 1], stack[|stack| - 1];
      assert stack == init + [last];
      WalkSnoc(dir, init, last);
    } else if seg != "" && seg != "." {
      WalkSnoc(dir, stack, seg);
    }
  }

  lemma {:induction false} CleanFromKeepsMeaning(dir: seq<string>, stack: seq<string>, segs: seq<string>)
    requires Cleaned(stack) && forall i :: 0 <= i < |segs| ==> '/' !in segs[i]
    ensures Walk(dir, CleanFrom(stack, segs)) == Walk(Walk(dir, stack), segs)
    decreases |segs|
  {
    if segs != [] {
      var next := CleanStep(stack, segs[0]);
      CleanStepKeepsMeaning(dir, stack, segs[0]);
      CleanFromKeepsMeaning(dir, next, segs[1..]);
      assert segs == [segs[0]] + segs[1..];
      WalkSnoc(Walk(dir, stack), [], segs[0]);
      assert [] + [segs[0]] == [segs[0]];
      WalkAppend(Walk(dir, stack), [segs[0]], segs[1..]);
    }
  }

  /** path.Clean changes where no path leads, from whatever directory. */
  lemma CleanKeepsMeaning(dir: seq<string>, p: string)
    ensures Walk(dir, Split(Clean(p))) == Walk(dir, Split(p))
  {
    CleanFromKeepsMeaning(dir, [], Split(p));
    CleanIdempotent(p);
    if CleanSegments(p) == [] {
      SplitNoSlash(".");
      assert [] + ["."] == ["."];
      WalkSnoc(dir, [], ".");
    } else {
      CleanedPath(CleanSegments(p));
    }
  }

  predicate HasDotDot(s: string) {
    exists i :: 0 <= i < |s| - 1 && s[i] == '.' && s[i + 1] == '.'
  }
}
