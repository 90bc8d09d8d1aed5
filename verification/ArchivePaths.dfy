/** Which paths an archive may hold, said about their segments: the string tests of
    normalizeArchiveFilePath and isIgnoredArchiveFile in internal/biz/skill_archive.go. */
module ArchivePaths {
  import opened Order
  import opened Paths
  import opened SkillArchive

  // ---- String tests as tests on segments ----

  lemma {:induction false} ContainsAt(a: string, t: string, b: string)
    ensures Contains(a + t + b, t)
  {
    if a != "" {
      assert (a + t + b)[1..] == a[1..] + t + b;
      ContainsAt(a[1..], t, b);
    } else {
      assert a + t + b == t + b;
    }
  }

  lemma {:induction false} FoundAt(s: string, t: string) returns (a: string, b: string)
    requires Contains(s, t)
    ensures s == a + t + b
  {
    if t <= s {
      a, b := "", s[|t|..];
    } else {
      a, b := FoundAt(s[1..], t);
      a := [s[0]] + a;
    }
  }

  lemma {:induction false} JoinAround(segs: seq<string>, i: nat)
    requires 0 < i < |segs|
    ensures Join(segs) == Join(segs[..i]) + "/" + Join(segs[i..])
    decreases i
  {
    if i > 1 {
      JoinAround(segs[1..], i - 1);
      assert segs[1..][..i - 1] == segs[..i][1..] && segs[1..][i - 1..] == segs[i..];
    } else {
      assert segs[..1] == [segs[0]];
    }
  }

  /** The path before and after one of its slashes. */
  lemma CutAt(p: string, i: nat) returns (a: string, b: string)
    requires 0 < i < |Split(p)|
    ensures p == a + "/" + b && Split(a) == Split(p)[..i] && Split(b) == Split(p)[i..]
  {
    JoinSplit(p);
    JoinAround(Split(p), i);
    a, b := Join(Split(p)[..i]), Join(Split(p)[i..]);
    SplitJoin(Split(p)[..i]);
    SplitJoin(Split(p)[i..]);
  }

  /** A path of one segment is that segment. */
  lemma OneSegment(p: string, d: string)
    requires '/' !in d
    ensures p == d <==> Split(p) == [d]
  {
    SplitNoSlash(d);
    JoinSplit(p);
    JoinSplit(d);
  }

  lemma PrefixIsDir(p: string, d: string, b: string)
    requires '/' !in d && p == d + "/" + b
    ensures Split(p) == [d] + Split(b)
  {
    SplitConcat(d, b);
    SplitNoSlash(d);
  }

  /** The path starts with a directory. */
  lemma StartsWithDir(p: string, d: string)
    requires '/' !in d
    ensures d + "/" <= p <==> |Split(p)| > 1 && Split(p)[0] == d
  {
    if d + "/" <= p {
      assert p == d + "/" + p[|d| + 1..];
      PrefixIsDir(p, d, p[|d| + 1..]);
    }
    if |Split(p)| > 1 && Split(p)[0] == d {
      var a, b := CutAt(p, 1);
      OneSegment(a, d);
    }
  }

  lemma Regroup(a: string, d: string, b: string)
    ensures a + "/" + (d + "/" + b) == a + ("/" + d + "/") + b
  {
  }

  lemma RegroupEnd(a: string, d: string)
    ensures a + "/" + d == a + ("/" + d)
  {
  }

  lemma MiddleFound(p: string, d: string) returns (i: nat)
    requires '/' !in d && Contains(p, "/" + d + "/")
    ensures 0 < i < |Split(p)| - 1 && Split(p)[i] == d
  {
    var a, b := FoundAt(p, "/" + d + "/");
    Regroup(a, d, b);
    SplitConcat(a, d + "/" + b);
    PrefixIsDir(d + "/" + b, d, b);
    i := |Split(a)|;
  }

  lemma MiddleContained(p: string, d: string, i: nat)
    requires '/' !in d && 0 < i < |Split(p)| - 1 && Split(p)[i] == d
    ensures Contains(p, "/" + d + "/")
  {
    var a, rest := CutAt(p, i);
    var e, b := CutAt(rest, 1);
    OneSegment(e, d);
    Regroup(a, d, b);
    ContainsAt(a, "/" + d + "/", b);
  }

  /** A directory stands in the middle of the path. */
  lemma HasMiddleDir(p: string, d: string)
    requires '/' !in d
    ensures Contains(p, "/" + d + "/") <==> exists i :: 0 < i < |Split(p)| - 1 && Split(p)[i] == d
  {
    if Contains(p, "/" + d + "/") {
      var i := MiddleFound(p, d);
    }
    if i :| 0 < i < |Split(p)| - 1 && Split(p)[i] == d {
      MiddleContained(p, d, i);
    }
  }

  lemma SuffixIsName(p: string, a: string, d: string)
    requires '/' !in d && p == a + "/" + d
    ensures Split(p) == Split(a) + [d]
  {
    SplitConcat(a, d);
    SplitNoSlash(d);
  }

  lemma EndsAt(p: string, a: string, t: string)
    requires p == a + t
    ensures EndsWith(p, t)
  {
  }

  lemma EndFound(p: string, d: string)
    requires '/' !in d && EndsWith(p, "/" + d)
    ensures |Split(p)| > 1 && Split(p)[|Split(p)| - 1] == d
  {
    var a := p[..|p| - |"/" + d|];
    assert p == a + ("/" + d);
    RegroupEnd(a, d);
    SuffixIsName(p, a, d);
  }

  /** The path ends with a segment below a directory. */
  lemma EndsWithName(p: string, d: string)
    requires '/' !in d
    ensures EndsWith(p, "/" + d) <==> |Split(p)| > 1 && Split(p)[|Split(p)| - 1] == d
  {
    if EndsWith(p, "/" + d) {
      EndFound(p, d);
    }
    if |Split(p)| > 1 && Split(p)[|Split(p)| - 1] == d {
      var a, b := CutAt(p, |Split(p)| - 1);
      OneSegment(b, d);
      RegroupEnd(a, d);
      EndsAt(p, a, "/" + d);
    }
  }

  // ---- Which paths are refused, and which are skipped ----

  lemma RefusedParts(p: string, here: string, up: string, git: string)
    requires here == "." && up == ".." && git == ".git"
    ensures RefusedPath(p) <==>
            p == here || p == up || up + "/" <= p || p == git || git + "/" <= p || Contains(p, "/" + git + "/")
    ensures '/' !in here && '/' !in up && '/' !in git
  {
    assert "../" == up + "/";
    assert ".git/" == git + "/";
    assert "/.git/" == "/" + git + "/";
  }

  ghost predicate LeadsTo(segs: seq<string>, up: string, git: string)
    requires segs != []
  {
    segs[0] == up || segs[0] == git || exists i :: 0 < i < |segs| - 1 && segs[i] == git
  }

  lemma RefusedBySegments(p: string, here: string, up: string, git: string)
    requires '/' !in here && '/' !in up && '/' !in git && Split(p) != [here]
    ensures p == here || p == up || up + "/" <= p || p == git || git + "/" <= p || Contains(p, "/" + git + "/") <==>
            LeadsTo(Split(p), up, git)
  {
    OneSegment(p, here);
    OneSegment(p, up);
    OneSegment(p, git);
    StartsWithDir(p, up);
    StartsWithDir(p, git);
    HasMiddleDir(p, git);
  }

  /** A clean path is refused exactly when it leads out of the archive, starts at `.git` or passes
      through a directory `.git`. */
  lemma RefusedExactly(segs: seq<string>)
    requires Cleaned(segs) && segs != []
    ensures RefusedPath(Join(segs)) <==>
            segs[0] == ".." || segs[0] == ".git" || exists i :: 0 < i < |segs| - 1 && segs[i] == ".git"
  {
    SplitJoin(segs);
    RefusedParts(Join(segs), ".", "..", ".git");
    RefusedBySegments(Join(segs), ".", "..", ".git");
  }

  /** A name in the archive is accepted exactly when, with forward slashes, it is not empty, does not
      start with a slash and has no colon, and its clean segments are some, do not lead out of the
      archive, do not start at `.git` and do not pass through a directory `.git`. It is then stored
      under those segments. A last segment `.git` below a directory is accepted. */
  lemma NormalizeExactly(raw: string)
    ensures var s := SlashesForward(TrimSpace(raw));
            var segs := CleanSegments(s);
            NormalizePath(raw) ==
            if s != "" && s[0] != '/' && ':' !in s && segs != [] && segs[0] != ".." && segs[0] != ".git" &&
               (forall i :: 0 < i < |segs| - 1 ==> segs[i] != ".git")
            then Some(Join(segs)) else None
  {
    var s := SlashesForward(TrimSpace(raw));
    CleanIdempotent(s);
    if CleanSegments(s) != [] {
      RefusedExactly(CleanSegments(s));
    }
  }

  lemma GitFileSegments()
    ensures Split("a/.git") == ["a", ".git"] && Join(["a", ".git"]) == "a/.git"
  {
    assert "a" + "/" + ".git" == "a/.git";
    SplitConcat("a", ".git");
    SplitNoSlash("a");
    SplitNoSlash(".git");
    assert ["a", ".git"][1..] == [".git"];
  }

  lemma GitFileClean()
    ensures CleanSegments("a/.git") == ["a", ".git"] && ".git" in Segments("a/.git")
  {
    GitFileSegments();
    var segs := ["a", ".git"];
    CleanFromFixed([], segs);
    assert [] + segs == segs;
    NonEmptyIdentity(segs);
    assert segs[1] == ".git";
  }

  lemma AcceptedAs(raw: string, segs: seq<string>)
    requires TrimSpace(raw) == raw && SlashesForward(raw) == raw && raw != "" && raw[0] != '/' && ':' !in raw
    requires CleanSegments(raw) == segs && |segs| == 2 && segs[0] != ".." && segs[0] != ".git"
    ensures NormalizePath(raw) == Some(Join(segs))
  {
    NormalizeExactly(raw);
  }

  lemma GitFileText(raw: string)
    requires raw == "a/.git"
    ensures TrimSpace(raw) == raw && SlashesForward(raw) == raw && raw != "" && raw[0] != '/' && ':' !in raw
  {
    NoBackslash(raw);
  }

  /** A file named `.git` below a directory is accepted. */
  lemma GitFileAccepted()
    ensures NormalizePath("a/.git") == Some("a/.git") && ".git" in Segments("a/.git")
  {
    GitFileText("a/.git");
    GitFileClean();
    GitFileSegments();
    AcceptedAs("a/.git", ["a", ".git"]);
  }

  lemma {:induction false} NoBackslash(s: string)
    requires '\\' !in s
    ensures SlashesForward(s) == s
  {
    assert forall i :: 0 <= i < |s| ==> s[i] in s;
  }

  lemma IgnoredParts(p: string, store: string, mac: string)
    requires store == ".DS_Store" && mac == "__MACOSX"
    ensures Ignored(p) <==> p == store || EndsWith(p, "/" + store) || mac + "/" <= p
    ensures '/' !in store && '/' !in mac
  {
    assert "/.DS_Store" == "/" + store;
    assert "__MACOSX/" == mac + "/";
  }

  lemma IgnoredBySegments(p: string, store: string, mac: string)
    requires '/' !in store && '/' !in mac
    ensures p == store || EndsWith(p, "/" + store) || mac + "/" <= p <==>
            Split(p)[|Split(p)| - 1] == store || (|Split(p)| > 1 && Split(p)[0] == mac)
  {
    OneSegment(p, store);
    EndsWithName(p, store);
    StartsWithDir(p, mac);
  }

  /** An accepted path is skipped exactly when its file is called `.DS_Store` or it lies below a
      top-level directory `__MACOSX`. */
  lemma IgnoredExactly(segs: seq<string>)
    requires Cleaned(segs) && segs != []
    ensures Ignored(Join(segs)) <==>
            segs[|segs| - 1] == ".DS_Store" || (|segs| > 1 && segs[0] == "__MACOSX")
  {
    SplitJoin(segs);
    IgnoredParts(Join(segs), ".DS_Store", "__MACOSX");
    IgnoredBySegments(Join(segs), ".DS_Store", "__MACOSX");
  }

  /** Two dots in a row, as a substring. */
  lemma DotDotExactly(p: string)
    ensures HasDotDot(p) <==> exists a: string, b: string :: p == a + ".." + b
  {
    if i :| 0 <= i < |p| - 1 && p[i] == '.' && p[i + 1] == '.' {
      assert p == p[..i] + ".." + p[i + 2..];
    }
    if a: string, b: string :| p == a + ".." + b {
      assert p[|a|] == '.' && p[|a| + 1] == '.';
    }
  }
}
