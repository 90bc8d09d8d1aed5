/** ParseSkillArchive of internal/biz/skill_archive.go: path normalization, the accounting
    loop with its limits, and stripping a single wrapping directory. */
module SkillArchive {
  import opened Order
  import opened Paths
  import opened GitSeed
  import GitPackage

  datatype Error = Invalid | TooLarge | MissingMeta

  datatype Result<+T> = Ok(value: T) | Err(error: Error)

  // ---- Path normalization ----

  function SlashesForward(s: string): (r: string)
    ensures |r| == |s|
    ensures forall i :: 0 <= i < |s| ==> r[i] == if s[i] == '\\' then '/' else s[i]
  {
    if s == "" then "" else [if s[0] == '\\' then '/' else s[0]] + SlashesForward(s[1..])
  }

  predicate Contains(s: string, t: string) {
    t <= s || (s != "" && Contains(s[1..], t))
  }

  /** The checks of normalizeArchiveFilePath on the cleaned path. */
  predicate RefusedPath(clean: string) {
    clean == "." || clean == ".." || "../" <= clean ||
    clean == ".git" || ".git/" <= clean || Contains(clean, "/.git/")
  }

  /** normalizeArchiveFilePath. */
  function NormalizePath(raw: string): Option<string> {
    var s := SlashesForward(TrimSpace(raw));
    if s == "" || s[0] == '/' || ':' in s then None
    else if RefusedPath(Clean(s)) then None
    else Some(Clean(s))
  }

  lemma {:induction false} SplitChars(s: string, c: char)
    requires c !in s
    ensures forall i :: 0 <= i < |Split(s)| ==> c !in Split(s)[i]
  {
    if s != "" {
      SplitChars(s[1..], c);
    }
  }

  lemma {:induction false} CleanFromChars(stack: seq<string>, segs: seq<string>, c: char)
    requires (forall i :: 0 <= i < |stack| ==> c !in stack[i]) && forall i :: 0 <= i < |segs| ==> c !in segs[i]
    ensures forall i :: 0 <= i < |CleanFrom(stack, segs)| ==> c !in CleanFrom(stack, segs)[i]
    decreases |segs|
  {
    if segs != [] {
      CleanFromChars(CleanStep(stack, segs[0]), segs[1..], c);
    }
  }

  lemma {:induction false} JoinChars(parts: seq<string>, c: char)
    requires c != '/' && forall i :: 0 <= i < |parts| ==> c !in parts[i]
    ensures c !in Join(parts)
  {
    if |parts| > 1 {
      JoinChars(parts[1..], c);
    }
  }

  /** Cleaning a path brings in no new characters. */
  lemma CleanChars(s: string, c: char)
    requires c !in s && c != '/' && c != '.'
    ensures c !in Clean(s)
  {
    SplitChars(s, c);
    CleanFromChars([], Split(s), c);
    JoinChars(CleanSegments(s), c);
  }

  /** A normalized path is clean, has no ".." segment, and is a path the package builder
      and the tree writer both understand. */
  lemma NormalizedPath(raw: string)
    requires NormalizePath(raw).Some?
    ensures var p := NormalizePath(raw).value;
            GitPackage.CleanArchivePath(p) && Clean(p) == p && ".." !in Segments(p) &&
            ':' !in p && '\\' !in p && p[|p| - 1] != '/'
  {
    var s := SlashesForward(TrimSpace(raw));
    var p := Clean(s);
    var segs := CleanSegments(s);
    CleanIdempotent(s);
    CleanedPath(segs);
    CleanChars(s, ':');
    CleanChars(s, '\\');
    NoDotDot(segs);
    JoinEnd(segs);
  }

  lemma {:induction false} JoinEnd(parts: seq<string>)
    requires parts != [] && forall i :: 0 <= i < |parts| ==> parts[i] != "" && '/' !in parts[i]
    ensures Join(parts) != "" && Join(parts)[|Join(parts)| - 1] != '/'
  {
    if |parts| == 1 {
      assert parts[0][|parts[0]| - 1] in parts[0];
    } else {
      JoinEnd(parts[1..]);
    }
  }

  /** Clean segments whose path neither is ".." nor starts with "../" have no ".." at all. */
  lemma NoDotDot(segs: seq<string>)
    requires Cleaned(segs) && segs != []
    requires Join(segs) != ".." && !("../" <= Join(segs))
    ensures ".." !in segs
  {
    assert segs[0] != "..";
    NoDotDotFrom(segs, |segs|);
  }

  lemma {:induction false} NoDotDotFrom(segs: seq<string>, n: nat)
    requires Cleaned(segs) && n <= |segs| && (segs != [] ==> segs[0] != "..")
    ensures forall i :: 0 <= i < n ==> segs[i] != ".."
  {
    if n > 0 {
      NoDotDotFrom(segs, n - 1);
      assert n > 1 ==> segs[n - 2] != "..";
    }
  }

  predicate EndsWith(s: string, t: string) {
    |t| <= |s| && s[|s| - |t|..] == t
  }

  /** isIgnoredArchiveFile. */
  predicate Ignored(p: string) {
    p == ".DS_Store" || EndsWith(p, "/.DS_Store") || "__MACOSX/" <= p
  }

  // ---- Stripping the wrapping directory ----

  const SKILL_MD := "SKILL.md"

  /** The content of the first file at the archive root named SKILL.md. */
  function RootSkill(files: seq<ArchiveFile>): Option<seq<bv8>> {
    if files == [] then None
    else if files[0].path == SKILL_MD then Some(files[0].content)
    else RootSkill(files[1..])
  }

  /** The single top-level directory with a SKILL.md in it, starting from `w`. */
  function Wrapper(files: seq<ArchiveFile>, w: string): Result<string> {
    if files == [] then (if w == "" then Err(MissingMeta) else Ok(w))
    else
      var parts := Split(files[0].path);
      if |parts| != 2 || parts[1] != SKILL_MD then Wrapper(files[1..], w)
      else if w != "" && w != parts[0] then Err(Invalid)
      else Wrapper(files[1..], parts[0])
  }

  function PathSet(files: seq<ArchiveFile>): set<string> {
    set f | f in files :: f.path
  }

  /** The files with the prefix taken off their paths; a file whose path is the prefix is dropped. */
  function Stripped(files: seq<ArchiveFile>, prefix: string): (r: Result<seq<ArchiveFile>>)
  {
    if files == [] then Ok([])
    else
      var last := files[|files| - 1];
      var front := Stripped(files[..|files| - 1], prefix);
      if front.Err? then front
      else if !(prefix <= last.path) then Err(Invalid)
      else
        var p := last.path[|prefix|..];
        if p == "" then front
        else if p in PathSet(front.value) then Err(Invalid)
        else Ok(front.value + [ArchiveFile(p, last.content)])
  }

  /** Whether a document has anything but ASCII white space in it. */
  predicate Blank(content: seq<bv8>) {
    forall b :: b in content ==> b == 32 || 9 <= b <= 13
  }

  /** normalizeSkillArchiveRoot, as a function. */
  function RootNormalized(files: seq<ArchiveFile>): Result<seq<ArchiveFile>> {
    if RootSkill(files).Some? then Ok(files)
    else
      var w := Wrapper(files, "");
      if w.Err? then Err(w.error)
      else
        var out := Stripped(files, w.value + "/");
        if out.Err? then out
        else
          var skill := RootSkill(out.value);
          if skill.None? || Blank(skill.value) then Err(MissingMeta) else out
  }

  /** normalizeSkillArchiveRoot, as it runs. */
  method NormalizeRoot(files: seq<ArchiveFile>) returns (r: Result<seq<ArchiveFile>>)
    ensures r == RootNormalized(files)
  {
    for i := 0 to |files|
      invariant RootSkill(files) == RootSkill(files[i..])
    {
      if files[i].path == SKILL_MD {
        return Ok(files);
      }
    }
    var wrapper := "";
    for i := 0 to |files|
      invariant Wrapper(files, "") == Wrapper(files[i..], wrapper)
    {
      var parts := Split(files[i].path);
      if |parts| != 2 || parts[1] != SKILL_MD {
        continue;
      }
      if wrapper != "" && wrapper != parts[0] {
        return Err(Invalid);
      }
      wrapper := parts[0];
    }
    if wrapper == "" {
      return Err(MissingMeta);
    }
    var prefix := wrapper + "/";
    var normalized: seq<ArchiveFile> := [];
    var seen: set<string> := {};
    var skillMD: Option<seq<bv8>> := None;
    for i := 0 to |files|
      invariant Stripped(files[..i], prefix) == Ok(normalized)
      invariant seen == PathSet(normalized) && skillMD == RootSkill(normalized)
    {
      assert files[..i + 1][..i] == files[..i];
      if !(prefix <= files[i].path) {
        StrippedStaysBroken(files, prefix, i + 1);
        return Err(Invalid);
      }
      var p := files[i].path[|prefix|..];
      if p == "" {
        continue;
      }
      if p in seen {
        StrippedStaysBroken(files, prefix, i + 1);
        return Err(Invalid);
      }
      seen := seen + {p};
      RootSkillAppend(normalized, ArchiveFile(p, files[i].content));
      if p == SKILL_MD {
        skillMD := Some(files[i].content);
      }
      normalized := normalized + [ArchiveFile(p, files[i].content)];
    }
    assert files[..|files|] == files;
    if skillMD.None? || Blank(skillMD.value) {
      return Err(MissingMeta);
    }
    return Ok(normalized);
  }

  lemma {:induction false} StrippedStaysBroken(files: seq<ArchiveFile>, prefix: string, n: nat)
    requires n <= |files| && Stripped(files[..n], prefix) == Err(Invalid)
    ensures Stripped(files, prefix) == Err(Invalid)
    decreases |files|
  {
    if n < |files| {
      assert files[..|files| - 1][..n] == files[..n];
      StrippedStaysBroken(files[..|files| - 1], prefix, n);
    } else {
      assert files[..n] == files;
    }
  }

  lemma {:induction false} RootSkillAppend(files: seq<ArchiveFile>, f: ArchiveFile)
    ensures RootSkill(files + [f]) ==
            if RootSkill(files).Some? then RootSkill(files)
            else if f.path == SKILL_MD then Some(f.content) else None
    ensures RootSkill(files).Some? ==> SKILL_MD in PathSet(files)
  {
    if files != [] {
      assert (files + [f])[1..] == files[1..] + [f];
      RootSkillAppend(files[1..], f);
      assert files == [files[0]] + files[1..];
    }
  }

  /** Every file keeps its place and content; its old path is the prefix and its new path. */
  ghost predicate ShiftedBy(files: seq<ArchiveFile>, out: seq<ArchiveFile>, prefix: string) {
    |out| == |files| &&
    forall i :: 0 <= i < |files| ==>
      files[i].path == prefix + out[i].path && files[i].content == out[i].content
  }

  ghost predicate DistinctPaths(files: seq<ArchiveFile>) {
    forall i, j :: 0 <= i < j < |files| ==> files[i].path != files[j].path
  }

  ghost predicate CleanPaths(files: seq<ArchiveFile>) {
    forall f :: f in files ==> GitPackage.CleanArchivePath(f.path)
  }

  lemma CleanPathEnd(p: string)
    requires GitPackage.CleanArchivePath(p)
    ensures p != "" && p[|p| - 1] != '/'
  {
    JoinEnd(Segments(p));
  }

  /** Clean paths never end in a slash, so nothing is dropped. */
  lemma {:induction false} StrippedShifts(files: seq<ArchiveFile>, prefix: string)
    requires Stripped(files, prefix).Ok? && CleanPaths(files)
    requires prefix != "" && prefix[|prefix| - 1] == '/'
    ensures ShiftedBy(files, Stripped(files, prefix).value, prefix)
    decreases |files|
  {
    if files != [] {
      var front, last := files[..|files| - 1], files[|files| - 1];
      assert files == front + [last];
      StrippedShifts(front, prefix);
      CleanPathEnd(last.path);
      ShiftedAppend(front, Stripped(front, prefix).value, prefix, last);
    }
  }

  lemma ShiftedAppend(files: seq<ArchiveFile>, out: seq<ArchiveFile>, prefix: string, last: ArchiveFile)
    requires ShiftedBy(files, out, prefix) && prefix <= last.path
    ensures ShiftedBy(files + [last], out + [ArchiveFile(last.path[|prefix|..], last.content)], prefix)
  {
    assert last.path == prefix + last.path[|prefix|..];
  }

  /** Taking the first directory off a clean path leaves a clean path. */
  lemma TailIsClean(w: string, p: string)
    requires GitPackage.CleanArchivePath(w + "/" + p) && '/' !in w && w != "" && p != ""
    ensures ".." !in Segments(w + "/" + p) ==> GitPackage.CleanArchivePath(p)
  {
    var full := w + "/" + p;
    SplitConcat(w, p);
    SplitNoSlash(w);
    CleanedPath(Segments(full));
    assert Split(full) == [w] + Split(p);
    NonEmptyIdentity(Split(full));
    NonEmptyIdentity(Split(p));
    JoinSplit(p);
    assert forall i :: 0 <= i < |Split(p)| ==> Split(p)[i] == Split(full)[i + 1];
  }

  lemma {:induction false} WrapperHasNoSlash(files: seq<ArchiveFile>, w: string)
    requires Wrapper(files, w).Ok? && '/' !in w
    ensures '/' !in Wrapper(files, w).value && Wrapper(files, w).value != ""
  {
    if files != [] {
      var parts := Split(files[0].path);
      WrapperHasNoSlash(files[1..], if |parts| != 2 || parts[1] != SKILL_MD then w else parts[0]);
    }
  }

  /** A wrapped archive is refused when its SKILL.md holds nothing but white space. */
  lemma WrappedSkillHasText(files: seq<ArchiveFile>)
    requires RootSkill(files).None? && RootNormalized(files).Ok?
    ensures var skill := RootSkill(RootNormalized(files).value);
            skill.Some? && exists i :: 0 <= i < |skill.value| && skill.value[i] != 32 && !(9 <= skill.value[i] <= 13)
  {
    var skill := RootSkill(RootNormalized(files).value);
    assert !Blank(skill.value);
    var b :| b in skill.value && b != 32 && !(9 <= b <= 13);
    var i :| 0 <= i < |skill.value| && skill.value[i] == b;
  }

  /** Root normalization keeps every file in its place with its content and takes the same
      prefix off every path. So it is injective on paths, and doing it twice changes nothing. */
  lemma RootNormalizedSpec(files: seq<ArchiveFile>)
    requires CleanPaths(files) && RootNormalized(files).Ok?
    ensures var out := RootNormalized(files).value;
            (exists prefix :: ShiftedBy(files, out, prefix)) && RootNormalized(out) == Ok(out) &&
            (DistinctPaths(files) ==> DistinctPaths(out))
  {
    var out := RootNormalized(files).value;
    if RootSkill(files).Some? {
      assert ShiftedBy(files, out, "");
    } else {
      WrapperHasNoSlash(files, "");
      StrippedShifts(files, Wrapper(files, "").value + "/");
    }
  }

  ghost predicate NoParentSegments(files: seq<ArchiveFile>) {
    forall f :: f in files ==> ".." !in Segments(f.path)
  }

  /** Clean paths stay clean. */
  lemma RootNormalizedStaysClean(files: seq<ArchiveFile>)
    requires CleanPaths(files) && NoParentSegments(files) && RootNormalized(files).Ok?
    ensures CleanPaths(RootNormalized(files).value)
  {
    var out := RootNormalized(files).value;
    if RootSkill(files).None? {
      var w := Wrapper(files, "").value;
      WrapperHasNoSlash(files, "");
      StrippedShifts(files, w + "/");
      forall i | 0 <= i < |out|
        ensures GitPackage.CleanArchivePath(out[i].path)
      {
        assert files[i] in files;
        CleanPathEnd(files[i].path);
        TailIsClean(w, out[i].path);
      }
    }
  }

  // ---- The accounting loop ----

  datatype Limits = Limits(maxArchiveBytes: int, maxUnpackedBytes: int, maxFiles: int, maxFileBytes: int)

  /** normalizeSkillArchiveLimits. */
  function NormalizedLimits(l: Limits): Limits {
    Limits(if l.maxArchiveBytes <= 0 then 52428800 else l.maxArchiveBytes,
           if l.maxUnpackedBytes <= 0 then 209715200 else l.maxUnpackedBytes,
           if l.maxFiles <= 0 then 2000 else l.maxFiles,
           if l.maxFileBytes <= 0 then 52428800 else l.maxFileBytes)
  }

  /** A decoded zip entry; `declared` is the size in its header, `content` is None when it
      cannot be read. */
  datatype ZipEntry = ZipEntry(name: string, isDir: bool, isSymlink: bool, declared: int, content: Option<seq<bv8>>)

  datatype Archive = Archive(files: seq<ArchiveFile>, fileCount: nat, unpackedBytes: nat)

  function TotalBytes(files: seq<ArchiveFile>): nat {
    if files == [] then 0 else TotalBytes(files[..|files| - 1]) + |files[|files| - 1].content|
  }

  /** What an entry contributes: nothing for directories and ignored files. */
  function KeptOf(e: ZipEntry): (r: seq<ArchiveFile>)
    ensures |r| <= 1
  {
    if !e.isDir && NormalizePath(e.name).Some? && !Ignored(NormalizePath(e.name).value) && e.content.Some?
    then [ArchiveFile(NormalizePath(e.name).value, e.content.value)] else []
  }

  /** The files of the entries that are neither directories nor ignored, in order. */
  function KeptFiles(entries: seq<ZipEntry>): seq<ArchiveFile> {
    if entries == [] then []
    else KeptFiles(entries[..|entries| - 1]) + KeptOf(entries[|entries| - 1])
  }

  /** What the loop checks about one entry, given the files kept before it. */
  predicate EntryAccepted(before: seq<ArchiveFile>, e: ZipEntry, l: Limits) {
    e.isDir ||
    (!e.isSymlink && NormalizePath(e.name).Some? &&
     (Ignored(NormalizePath(e.name).value) ||
      (NormalizePath(e.name).value !in PathSet(before) &&
       |before| + 1 <= l.maxFiles &&
       e.declared <= l.maxFileBytes && TotalBytes(before) + e.declared <= l.maxUnpackedBytes &&
       e.content.Some? && |e.content.value| <= l.maxFileBytes &&
       TotalBytes(before) + |e.content.value| <= l.maxUnpackedBytes)))
  }

  /** The first `n` entries are accepted, each after the ones before it. */
  predicate AcceptedUpTo(entries: seq<ZipEntry>, l: Limits, n: nat)
    requires n <= |entries|
  {
    n == 0 || (AcceptedUpTo(entries, l, n - 1) && EntryAccepted(KeptFiles(entries[..n - 1]), entries[n - 1], l))
  }

  predicate Accepted(entries: seq<ZipEntry>, l: Limits) {
    AcceptedUpTo(entries, l, |entries|)
  }

  lemma {:induction false} RefusedStaysRefused(entries: seq<ZipEntry>, l: Limits, n: nat, m: nat)
    requires n <= m <= |entries| && !AcceptedUpTo(entries, l, n)
    ensures !AcceptedUpTo(entries, l, m)
  {
    if n < m {
      RefusedStaysRefused(entries, l, n, m - 1);
    }
  }

  lemma TotalBytesAppend(files: seq<ArchiveFile>, f: ArchiveFile)
    ensures TotalBytes(files + [f]) == TotalBytes(files) + |f.content|
    ensures PathSet(files + [f]) == PathSet(files) + {f.path}
  {
    assert (files + [f])[..|files|] == files;
  }

  lemma KeptStep(entries: seq<ZipEntry>, i: nat)
    requires i < |entries|
    ensures KeptFiles(entries[..i + 1]) == KeptFiles(entries[..i]) + KeptOf(entries[i])
  {
    assert entries[..i + 1][..i] == entries[..i];
  }

  /** The checks on one entry, in the order the loop makes them. */
  method CheckEntry(files: seq<ArchiveFile>, seen: set<string>, total: nat, e: ZipEntry, l: Limits)
    returns (r: Result<seq<ArchiveFile>>)
    requires seen == PathSet(files) && total == TotalBytes(files)
    ensures r.Ok? <==> EntryAccepted(files, e, l)
    ensures r.Ok? ==> r.value == KeptOf(e)
    ensures r.Ok? && r.value != [] ==>
              |files| + 1 <= l.maxFiles && total + |r.value[0].content| <= l.maxUnpackedBytes
  {
    if e.isDir {
      return Ok([]);
    }
    if e.isSymlink {
      return Err(Invalid);
    }
    var p := NormalizePath(e.name);
    if p.None? {
      return Err(Invalid);
    }
    if Ignored(p.value) {
      return Ok([]);
    }
    if p.value in seen {
      return Err(Invalid);
    }
    if |files| + 1 > l.maxFiles || e.declared > l.maxFileBytes || total + e.declared > l.maxUnpackedBytes {
      return Err(TooLarge);
    }
    if e.content.None? {
      return Err(Invalid);
    }
    if |e.content.value| > l.maxFileBytes || total + |e.content.value| > l.maxUnpackedBytes {
      return Err(TooLarge);
    }
    return Ok([ArchiveFile(p.value, e.content.value)]);
  }

  /** Where the collecting loop stands after `i` entries. */
  ghost predicate Collected(entries: seq<ZipEntry>, l: Limits, i: nat, files: seq<ArchiveFile>, seen: set<string>,
                            total: nat) {
    i <= |entries| && files == KeptFiles(entries[..i]) && seen == PathSet(files) && total == TotalBytes(files) &&
    |files| <= l.maxFiles && total <= l.maxUnpackedBytes && AcceptedUpTo(entries, l, i)
  }

  lemma CollectNext(entries: seq<ZipEntry>, l: Limits, i: nat, files: seq<ArchiveFile>, seen: set<string>, total: nat,
                    kept: seq<ArchiveFile>)
    requires Collected(entries, l, i, files, seen, total) && i < |entries| && EntryAccepted(files, entries[i], l)
    requires kept == KeptOf(entries[i])
    requires kept != [] ==> |files| + 1 <= l.maxFiles && total + |kept[0].content| <= l.maxUnpackedBytes
    ensures kept == [] ==> Collected(entries, l, i + 1, files, seen, total)
    ensures kept != [] ==>
              Collected(entries, l, i + 1, files + [kept[0]], seen + {kept[0].path}, total + |kept[0].content|)
  {
    KeptStep(entries, i);
    if kept == [] {
      assert files + kept == files;
    } else {
      assert kept == [kept[0]];
      TotalBytesAppend(files, kept[0]);
    }
  }

  /** The collecting loop of ParseSkillArchive: it succeeds exactly when every entry is
      accepted, and then returns the kept files and their total size. */
  method CollectFiles(entries: seq<ZipEntry>, l: Limits) returns (r: Result<seq<ArchiveFile>>, total: nat)
    requires l.maxFiles > 0 && l.maxUnpackedBytes > 0
    ensures r.Ok? <==> Accepted(entries, l)
    ensures r.Ok? ==> r.value == KeptFiles(entries) && total == TotalBytes(r.value)
    ensures r.Ok? ==> |r.value| <= l.maxFiles && total <= l.maxUnpackedBytes
  {
    var files: seq<ArchiveFile> := [];
    var seen: set<string> := {};
    total := 0;
    for i := 0 to |entries|
      invariant Collected(entries, l, i, files, seen, total)
    {
      var checked := CheckEntry(files, seen, total, entries[i], l);
      if checked.Err? {
        RefusedStaysRefused(entries, l, i + 1, |entries|);
        return Err(checked.error), total;
      }
      CollectNext(entries, l, i, files, seen, total, checked.value);
      if checked.value != [] {
        var f := checked.value[0];
        seen := seen + {f.path};
        total := total + |f.content|;
        files := files + [f];
      }
    }
    assert entries[..|entries|] == entries;
    return Ok(files), total;
  }

  lemma {:induction false} KeptFilesClean(entries: seq<ZipEntry>)
    ensures CleanPaths(KeptFiles(entries)) && NoParentSegments(KeptFiles(entries))
    decreases |entries|
  {
    if entries != [] {
      var e := entries[|entries| - 1];
      KeptFilesClean(entries[..|entries| - 1]);
      if KeptOf(e) != [] {
        NormalizedPath(e.name);
      }
    }
  }

  lemma KeptIsNew(before: seq<ArchiveFile>, e: ZipEntry, l: Limits)
    requires EntryAccepted(before, e, l)
    ensures KeptOf(e) != [] ==> KeptOf(e)[0].path !in PathSet(before)
  {
  }

  lemma {:induction false} KeptFilesDistinct(entries: seq<ZipEntry>, l: Limits, n: nat)
    requires n <= |entries| && AcceptedUpTo(entries, l, n)
    ensures DistinctPaths(KeptFiles(entries[..n]))
  {
    if n > 0 {
      KeptIsNew(KeptFiles(entries[..n - 1]), entries[n - 1], l);
      KeptStep(entries, n - 1);
      KeptFilesDistinct(entries, l, n - 1);
      AppendDistinct(KeptFiles(entries[..n - 1]), KeptOf(entries[n - 1]));
    }
  }

  lemma AppendDistinct(files: seq<ArchiveFile>, more: seq<ArchiveFile>)
    requires DistinctPaths(files) && |more| <= 1 && (more != [] ==> more[0].path !in PathSet(files))
    ensures DistinctPaths(files + more)
  {
    assert forall i :: 0 <= i < |files| ==> files[i].path in PathSet(files);
  }

  lemma {:induction false} ShiftKeepsBytes(files: seq<ArchiveFile>, out: seq<ArchiveFile>, prefix: string)
    requires ShiftedBy(files, out, prefix)
    ensures TotalBytes(out) == TotalBytes(files)
    decreases |files|
  {
    if files != [] {
      ShiftKeepsBytes(files[..|files| - 1], out[..|out| - 1], prefix);
    }
  }

  /** ParseSkillArchive up to reading the SKILL.md document. It succeeds exactly when every
      entry is accepted and the root can be normalized. The reported count and size are those
      of the returned files and stay within the limits; the returned paths are clean and
      different. */
  method ParseArchive(entries: seq<ZipEntry>, archiveBytes: nat, limits: Limits) returns (r: Result<Archive>)
    ensures var l := Limits(if limits.maxArchiveBytes <= 0 then 52428800 else limits.maxArchiveBytes,
                            if limits.maxUnpackedBytes <= 0 then 209715200 else limits.maxUnpackedBytes,
                            if limits.maxFiles <= 0 then 2000 else limits.maxFiles,
                            if limits.maxFileBytes <= 0 then 52428800 else limits.maxFileBytes);
            r.Ok? <==> 0 < archiveBytes <= l.maxArchiveBytes && Accepted(entries, l) &&
                       RootNormalized(KeptFiles(entries)).Ok?
    ensures r.Ok? ==>
              var a, l := r.value, NormalizedLimits(limits);
              RootNormalized(KeptFiles(entries)) == Ok(a.files) &&
              a.fileCount == |a.files| <= l.maxFiles &&
              a.unpackedBytes == TotalBytes(a.files) <= l.maxUnpackedBytes &&
              CleanPaths(a.files) && DistinctPaths(a.files)
  {
    var l := NormalizedLimits(limits);
    if archiveBytes == 0 {
      return Err(Invalid);
    }
    if archiveBytes > l.maxArchiveBytes {
      return Err(TooLarge);
    }
    var collected, total := CollectFiles(entries, l);
    if collected.Err? {
      return Err(collected.error);
    }
    var normalized := NormalizeRoot(collected.value);
    if normalized.Err? {
      return Err(normalized.error);
    }
    KeptFilesClean(entries);
    KeptFilesDistinct(entries, l, |entries|);
    assert entries[..|entries|] == entries;
    RootNormalizedSpec(collected.value);
    RootNormalizedStaysClean(collected.value);
    ghost var prefix :| ShiftedBy(collected.value, normalized.value, prefix);
    ShiftKeepsBytes(collected.value, normalized.value, prefix);
    return Ok(Archive(normalized.value, |normalized.value|, total));
  }
}
