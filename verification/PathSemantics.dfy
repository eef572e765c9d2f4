/** What resolve means: normal forms of component stacks, and paths relative to a directory. */
module PathSemantics {
  import opened PathNames
  import opened PathResolve

  /** The normal form of an absolute path. */
  function NormalForm(path: string): seq<string> { Normalise([], Components(path)) }

  function PrintRoot(s: seq<string>): string { if s == [] then [SEP] else Join(s) }

  /** The answer for a normal form: internal and without the mount directory, or external. */
  function Answer(fs: Fs, s: seq<string>): Result {
    if IsPrefix(fs.mnt, s) then Internal(PrintRoot(s[|fs.mnt|..])) else External(PrintRoot(s))
  }

  lemma {:induction false} JoinLength(s: seq<string>)
    requires s != [] && AllNames(s)
    ensures |Join(s)| >= 2 && Join(s)[0] == SEP && Join(s)[|Join(s)| - 1] != SEP
  {
    JoinStarts(s);
    assert IsName(s[|s| - 1]);
  }

  /** The final erase removes exactly the mount directory. */
  lemma EraseMount(m: string, rest: string)
    requires m != "" && m[0] == SEP && (rest == "" || (|rest| >= 2 && rest[0] == SEP))
    ensures EraseBehindFirst(m + rest, |m|) == if rest == "" then [SEP] else rest
  {
    if rest == "" {
      assert m + rest == m;
    } else {
      assert (m + rest)[1 + |m|..] == rest[1..];
    }
  }

  lemma {:induction false} FinishInside(fs: Fs, s: seq<string>)
    requires fs.Valid() && AllNames(s) && IsPrefix(fs.mnt, s)
    ensures EraseBehindFirst(Join(s), |Join(fs.mnt)|) == PrintRoot(s[|fs.mnt|..])
  {
    var rest := s[|fs.mnt|..];
    assert fs.mnt + rest == s;
    JoinConcat(fs.mnt, rest);
    JoinLength(fs.mnt);
    if rest != [] { JoinLength(rest); }
    EraseMount(Join(fs.mnt), Join(rest));
  }

  lemma FinishAnswers(fs: Fs, s: seq<string>)
    requires fs.Valid() && AllNames(s)
    ensures Finish(fs, Place("", s)) == Answer(fs, s)
  {
    assert Place("", s).Print() == Join(s);
    if s != [] { JoinLength(s); }
    if IsPrefix(fs.mnt, s) { FinishInside(fs, s); }
  }

  // ---- Without links ----

  /** Entering c from s asks for nothing, for a directory, or for a file named by the last component. */
  predicate PlainEntry(fs: Fs, s: seq<string>, c: string, last: bool) {
    || c == "." || c == ".." || IsPrefix(fs.mnt, s) || fs.lstat(Join(s + [c])).Directory?
    || (fs.lstat(Join(s + [c])).Other? && last)
  }

  /** Every prefix that the walk asks for is a directory, or a file named by the last component. */
  predicate PlainAt(fs: Fs, path: string, pos: nat, s: seq<string>)
    decreases |path| - pos
  {
    pos + 1 >= |path| ||
    var start := SkipSlashes(path, pos + 1);
    var end := FindSlash(path, start);
    start == end || (
      PlainEntry(fs, s, path[start..end], end == |path|) && PlainAt(fs, path, end, Enter(s, path[start..end])))
  }

  /** The components from index pos on: the word that the walk finds, and those behind it. */
  lemma ComponentsAt(path: string, pos: nat)
    requires pos + 1 < |path| && path[pos] == SEP
    ensures var start := SkipSlashes(path, pos + 1);
      var end := FindSlash(path, start);
      && pos < start <= end <= |path| && NoSlash(path[start..end]) && (end < |path| ==> path[end] == SEP)
      && Components(path[pos..]) == Flush(path[start..end]) + Components(path[end..])
      && (start == end ==> end == |path|)
  {
    var start := SkipSlashes(path, pos + 1);
    SkipKeepsWords(path, pos);
    assert SkipSlashes(path, pos) == start;
    FirstWord(path, start);
    FindSlashClear(path, start);
    SkipStops(path, pos + 1);
  }

  lemma {:induction false} SkipStops(path: string, i: nat)
    requires i <= |path|
    ensures SkipSlashes(path, i) < |path| ==> path[SkipSlashes(path, i)] != SEP
    decreases |path| - i
  {
    if i < |path| && path[i] == SEP { SkipStops(path, i + 1); }
  }

  lemma OneSlash(path: string, pos: nat)
    requires pos <= |path| <= pos + 1 && (pos < |path| ==> path[pos] == SEP)
    ensures Components(path[pos..]) == []
  {
    if pos < |path| {
      assert path[pos..] == "" + ([SEP] + "");
      WordsConcat("", "", "");
    }
  }

  lemma {:induction false} NormaliseStep(s: seq<string>, c: string, comps: seq<string>)
    requires c != ""
    ensures Normalise(s, Flush(c) + comps) == Normalise(Enter(s, c), comps)
  {
    assert ([c] + comps)[0] == c && ([c] + comps)[1..] == comps;
  }

  /** Entering a component without meeting a link. */
  lemma LookPlain(fs: Fs, path: string, followLast: bool, end: nat, s: seq<string>, c: string)
    requires PlainEntry(fs, s, c, end == |path|) && c != "." && c != ".."
    ensures Look(fs, path, followLast, end, Place("", s), c) == Go(Place("", Enter(s, c)))
  {
    assert Place("", s + [c]).Print() == Join(s + [c]);
  }

  /** One component of the walk. */
  lemma {:induction false} WalkStep(fs: Fs, path: string, followLast: bool, pos: nat, s: seq<string>, start: nat,
                                    end: nat)
    requires pos + 1 < |path| && start == SkipSlashes(path, pos + 1) && end == FindSlash(path, start)
      && start < end <= |path|
    requires PlainEntry(fs, s, path[start..end], end == |path|)
    ensures Walk(fs, path, followLast, pos, Place("", s))
      == Walk(fs, path, followLast, end, Place("", Enter(s, path[start..end])))
  {
    if path[start..end] != "." && path[start..end] != ".." {
      LookPlain(fs, path, followLast, end, s, path[start..end]);
    }
  }

  /** The stack behind index pos when the walk starts there with s. */
  function StackFrom(path: string, pos: nat, s: seq<string>): seq<string> {
    if pos <= |path| then Normalise(s, Components(path[pos..])) else s
  }

  lemma {:induction false} StackStep(path: string, pos: nat, s: seq<string>, start: nat, end: nat)
    requires pos + 1 < |path| && path[pos] == SEP && start == SkipSlashes(path, pos + 1)
      && end == FindSlash(path, start)
    ensures pos < start <= end <= |path| && (end < |path| ==> path[end] == SEP)
    ensures StackFrom(path, pos, s) == if start == end then s else StackFrom(path, end, Enter(s, path[start..end]))
  {
    ComponentsAt(path, pos);
    if start == end {
      assert path[end..] == "" && path[start..end] == "";
    } else {
      NormaliseStep(s, path[start..end], Components(path[end..]));
    }
  }

  /** Without links the walk ends at the normal form. */
  lemma {:induction false} WalkPlain(fs: Fs, path: string, followLast: bool, pos: nat, s: seq<string>)
    requires PlainAt(fs, path, pos, s) && pos <= |path| && (pos < |path| ==> path[pos] == SEP)
    ensures Walk(fs, path, followLast, pos, Place("", s)) == Finish(fs, Place("", StackFrom(path, pos, s)))
    decreases |path| - pos
  {
    if pos + 1 >= |path| {
      OneSlash(path, pos);
    } else {
      var start := SkipSlashes(path, pos + 1);
      var end := FindSlash(path, start);
      StackStep(path, pos, s, start, end);
      if start != end {
        WalkStep(fs, path, followLast, pos, s, start, end);
        WalkPlain(fs, path, followLast, end, Enter(s, path[start..end]));
      }
    }
  }

  /** resolve on an absolute path without links: internal exactly when the mount components are a prefix
      of the normal form, and the output is the normal form, with the mount directory stripped; paths
      below /sys and /proc are handed back as they are. */
  lemma {:induction false} ResolvePlain(fs: Fs, path: string, followLast: bool)
    requires fs.Valid() && path != "" && path[0] == SEP && PlainAt(fs, path, 0, [])
    ensures Resolved(fs, path, followLast) == if Excluded(path) then External(path) else Answer(fs, NormalForm(path))
  {
    WalkPlain(fs, path, followLast, 0, []);
    assert path[0..] == path;
    WordsAreWords("", path);
    NormaliseKeepsNames([], Components(path));
    FinishAnswers(fs, NormalForm(path));
  }

  // ---- Relative paths ----

  /** Entering the components from s meets only directories outside the mount directory. */
  predicate DirsOnly(fs: Fs, s: seq<string>, comps: seq<string>)
    decreases |comps|
  {
    comps == [] ||
    (&& (comps[0] == "." || comps[0] == ".." || IsPrefix(fs.mnt, s) || fs.lstat(Join(s + [comps[0]])).Directory?)
     && DirsOnly(fs, Enter(s, comps[0]), comps[1..]))
  }

  lemma {:induction false} DirsOnlyConcat(fs: Fs, s: seq<string>, a: seq<string>, b: seq<string>)
    ensures DirsOnly(fs, s, a + b) <==> DirsOnly(fs, s, a) && DirsOnly(fs, Normalise(s, a), b)
    decreases |a|
  {
    if a == [] {
      assert a + b == b;
    } else {
      assert (a + b)[0] == a[0] && (a + b)[1..] == a[1..] + b;
      DirsOnlyConcat(fs, Enter(s, a[0]), a[1..], b);
    }
  }

  lemma {:induction false} DirsOnlyStep(fs: Fs, s: seq<string>, c: string, comps: seq<string>)
    requires c != "" && DirsOnly(fs, s, Flush(c) + comps)
    ensures c == "." || c == ".." || IsPrefix(fs.mnt, s) || fs.lstat(Join(s + [c])).Directory?
    ensures DirsOnly(fs, Enter(s, c), comps)
  {
    assert ([c] + comps)[0] == c && ([c] + comps)[1..] == comps;
  }

  lemma {:induction false} DirsOnlyPlain(fs: Fs, path: string, pos: nat, s: seq<string>)
    requires pos <= |path| && (pos < |path| ==> path[pos] == SEP) && DirsOnly(fs, s, Components(path[pos..]))
    ensures PlainAt(fs, path, pos, s)
    decreases |path| - pos
  {
    if pos + 1 < |path| {
      ComponentsAt(path, pos);
      var start := SkipSlashes(path, pos + 1);
      var end := FindSlash(path, start);
      if start != end {
        DirsOnlyStep(fs, s, path[start..end], Components(path[end..]));
        DirsOnlyPlain(fs, path, end, Enter(s, path[start..end]));
      }
    }
  }

  /** The mount directory and its parents are directories. */
  predicate MountExists(fs: Fs) {
    forall k :: 0 <= k < |fs.mnt| ==> fs.lstat(Join(fs.mnt[..k] + [fs.mnt[k]])).Directory?
  }

  /** Going down to a place inside the mount directory asks only for the mount directory's prefixes. */
  lemma {:induction false} DownToInside(fs: Fs, s: seq<string>, k: nat)
    requires fs.Valid() && MountExists(fs) && IsPrefix(fs.mnt, s) && AllNames(s) && k <= |s|
    ensures DirsOnly(fs, s[..k], s[k..])
    decreases |s| - k
  {
    if k < |s| {
      assert s[k..][0] == s[k] && s[k..][1..] == s[k + 1..] && IsName(s[k]);
      assert Enter(s[..k], s[k]) == s[..k + 1];
      if k < |fs.mnt| {
        assert s[..k] == fs.mnt[..k] && s[k] == fs.mnt[k];
      } else {
        assert s[..k][..|fs.mnt|] == fs.mnt;
      }
      DownToInside(fs, s, k + 1);
    }
  }

  /** A path that starts with a stack's printed form and goes on relatively. */
  lemma {:induction false} FromPrinted(fs: Fs, s: seq<string>, path: string, rel: string, followLast: bool)
    requires fs.Valid() && MountExists(fs) && IsPrefix(fs.mnt, s) && AllNames(s)
    requires path != "" && path[0] == SEP && Components(path) == s + Components(rel) && DirsOnly(fs, s, Components(rel))
    requires !Excluded(path)
    ensures Resolved(fs, path, followLast) == Answer(fs, Normalise(s, Components(rel)))
  {
    DownToInside(fs, s, 0);
    assert s[..0] == [] && s[0..] == s;
    NormaliseNames([], s);
    assert [] + s == s;
    DirsOnlyConcat(fs, [], s, Components(rel));
    NormaliseConcat([], s, Components(rel));
    assert path[0..] == path;
    DirsOnlyPlain(fs, path, 0, []);
    ResolvePlain(fs, path, followLast);
  }

  /** hook_chdir: the working directory for an internal path; a trailing slash goes. */
  function Cwd(fs: Fs, internal: string): string {
    var p := fs.MountDir() + internal;
    if p != "" && p[|p| - 1] == SEP then p[..|p| - 1] else p
  }

  /** prepend_path, and the path that relativize_fd_path builds for a directory descriptor. */
  function Prepend(prefix: string, rel: string): string { prefix + [SEP] + rel }

  function FdPath(fs: Fs, internal: string, rel: string): string { fs.MountDir() + internal + [SEP] + rel }

  lemma {:induction false} CwdPrints(fs: Fs, s: seq<string>)
    requires fs.Valid() && AllNames(s) && IsPrefix(fs.mnt, s)
    ensures Cwd(fs, PrintRoot(s[|fs.mnt|..])) == Join(s)
  {
    var rest := s[|fs.mnt|..];
    assert fs.mnt + rest == s;
    JoinConcat(fs.mnt, rest);
    JoinLength(s);
    if rest == [] { assert Cwd(fs, [SEP]) == Join(fs.mnt); }
  }

  lemma FdComponents(fs: Fs, s: seq<string>, rel: string)
    requires fs.Valid() && AllNames(s) && IsPrefix(fs.mnt, s)
    ensures Components(FdPath(fs, PrintRoot(s[|fs.mnt|..]), rel)) == s + Components(rel)
  {
    var rest := s[|fs.mnt|..];
    assert fs.mnt + rest == s;
    JoinConcat(fs.mnt, rest);
    ScanPrinted(s);
    ComponentsConcat(fs.MountDir() + PrintRoot(rest), rel);
    if rest == [] {
      assert s == fs.mnt;
      ComponentsConcat(Join(s), "");
      assert Join(s) + [SEP] + "" == fs.MountDir() + PrintRoot(rest);
      assert s + [] == s;
    }
  }

  /** The directories whose contents resolve leaves alone. */
  predicate System(c: string) { c == "sys" || c == "proc" }

  lemma {:induction false} NameOf(p: string, n: string)
    requires StartsAt(p, 1, n + [SEP]) && NoSlash(n)
    ensures FindSlash(p, 1) == 1 + |n| < |p| && p[1..1 + |n|] == n
  {
    var x := n + [SEP];
    assert x[..|n|] == n && x[|n|] == SEP;
    assert p[1..1 + |n|] == p[1..1 + |x|][..|n|] && p[1 + |n|] == p[1..1 + |x|][|n|];
    forall k | 1 <= k < 1 + |n| ensures p[k] != SEP { assert p[k] == p[1..1 + |n|][k - 1]; }
    FindSlashStops(p, 1, 1 + |n|);
  }

  lemma {:induction false} SameName(p: string, c: string, n: string)
    requires StartsAt(p, 1, c + [SEP]) && NoSlash(c) && NoSlash(n)
    ensures StartsAt(p, 1, n + [SEP]) <==> c == n
  {
    if StartsAt(p, 1, n + [SEP]) {
      NameOf(p, n);
      NameOf(p, c);
    }
  }

  lemma {:induction false} OpensWith(p: string, c: string, rest: string)
    requires p == [SEP] + c + rest && rest != "" && rest[0] == SEP
    ensures StartsAt(p, 1, c + [SEP])
  {
    assert p[1..2 + |c|] == c + [SEP];
  }

  lemma {:induction false} StartsWithName(p: string, c: string, rest: string, n: string)
    requires p == [SEP] + c + rest && rest != "" && rest[0] == SEP && NoSlash(c) && NoSlash(n)
    ensures StartsAt(p, 1, n + [SEP]) <==> c == n
  {
    OpensWith(p, c, rest);
    SameName(p, c, n);
  }

  /** Paths into the mount directory are excluded exactly when its first component is sys or proc. */
  lemma {:induction false} ExcludedMount(fs: Fs, s: seq<string>, path: string, rest: string)
    requires fs.Valid() && IsPrefix(fs.mnt, s) && AllNames(s) && rest != "" && rest[0] == SEP && path == Join(s) + rest
    ensures Excluded(path) <==> System(fs.mnt[0])
  {
    JoinParts(s, 0);
    assert s[..0] == [] && s[0] == fs.mnt[0] && IsName(s[0]);
    var tail := Join(s[1..]) + rest;
    if s[1..] != [] { JoinStarts(s[1..]); }
    assert path == [SEP] + s[0] + tail;
    StartsWithName(path, s[0], tail, "sys");
    StartsWithName(path, s[0], tail, "proc");
    assert "sys" + [SEP] == "sys/" && "proc" + [SEP] == "proc/";
  }

  /** A directory in front of a path that starts with name n starts with it or is it. */
  lemma {:induction false} StartsBehind(dir: string, rel: string, n: string)
    requires dir != "" && dir[0] == SEP && NoSlash(n) && StartsAt(Prepend(dir, rel), 1, n + [SEP])
    ensures StartsAt(dir, 1, n + [SEP]) || dir == [SEP] + n
  {
    var p, x := Prepend(dir, rel), n + [SEP];
    NameOf(p, n);
    FindSlashClear(p, 1);
    assert p[|dir|] == SEP;
    assert dir[1..1 + |n|] == p[1..1 + |n|];
    if |dir| > 1 + |n| { assert dir[1..1 + |x|] == p[1..1 + |x|]; }
  }

  lemma {:induction false} NormalName(n: string)
    requires IsName(n)
    ensures NormalForm([SEP] + n) == [n]
  {
    JoinSnoc([], n);
    assert [] + [n] == [n] && Join([n]) == [SEP] + n;
    ScanPrinted([n]);
    NormaliseNames([], [n]);
  }

  lemma {:induction false} NotExcludedBehind(fs: Fs, dir: string, rel: string, n: string)
    requires fs.Valid() && dir != "" && dir[0] == SEP && IsPrefix(fs.mnt, NormalForm(dir)) && fs.mnt[0] != n
    requires IsName(n) && !StartsAt(dir, 1, n + [SEP])
    ensures !StartsAt(Prepend(dir, rel), 1, n + [SEP])
  {
    NormalName(n);
    if StartsAt(Prepend(dir, rel), 1, n + [SEP]) { StartsBehind(dir, rel, n); }
  }

  lemma {:induction false} FdExcluded(fs: Fs, s: seq<string>, rel: string)
    requires fs.Valid() && !System(fs.mnt[0]) && AllNames(s) && IsPrefix(fs.mnt, s)
    ensures !Excluded(FdPath(fs, PrintRoot(s[|fs.mnt|..]), rel))
  {
    var internal := PrintRoot(s[|fs.mnt|..]);
    var path, rest := FdPath(fs, internal, rel), internal + [SEP] + rel;
    if s[|fs.mnt|..] != [] { JoinStarts(s[|fs.mnt|..]); }
    assert path == Join(fs.mnt) + rest && fs.mnt[..|fs.mnt|] == fs.mnt;
    ExcludedMount(fs, fs.mnt, path, rest);
  }

  /** The paths that hook_chdir and relativize_fd_path build from the directory of a stack. */
  lemma {:induction false} InsideAgrees(fs: Fs, s: seq<string>, rel: string, followLast: bool)
    requires fs.Valid() && MountExists(fs) && !System(fs.mnt[0]) && AllNames(s) && IsPrefix(fs.mnt, s)
    requires DirsOnly(fs, s, Components(rel))
    ensures var internal, answer := PrintRoot(s[|fs.mnt|..]), Answer(fs, Normalise(s, Components(rel)));
      && Resolved(fs, Prepend(Cwd(fs, internal), rel), followLast) == answer
      && Resolved(fs, FdPath(fs, internal, rel), followLast) == answer
  {
    var internal := PrintRoot(s[|fs.mnt|..]);
    CwdPrints(fs, s);
    FdComponents(fs, s, rel);
    ScanPrinted(s);
    ComponentsConcat(Join(s), rel);
    JoinLength(s);
    JoinLength(fs.mnt);
    assert Prepend(Join(s), rel) == Join(s) + ([SEP] + rel);
    ExcludedMount(fs, s, Prepend(Join(s), rel), [SEP] + rel);
    FromPrinted(fs, s, Prepend(Join(s), rel), rel, followLast);
    FdExcluded(fs, s, rel);
    FromPrinted(fs, s, FdPath(fs, internal, rel), rel, followLast);
  }

  /** Through directories, resolve answers the normal form. */
  lemma {:induction false} DirsAnswer(fs: Fs, path: string, followLast: bool)
    requires fs.Valid() && path != "" && path[0] == SEP && !Excluded(path) && DirsOnly(fs, [], Components(path))
    ensures Resolved(fs, path, followLast) == Answer(fs, NormalForm(path))
  {
    assert path[0..] == path;
    DirsOnlyPlain(fs, path, 0, []);
    ResolvePlain(fs, path, followLast);
  }

  lemma {:induction false} FullOutside(fs: Fs, dir: string, rel: string)
    requires fs.Valid() && dir != "" && dir[0] == SEP && !System(fs.mnt[0]) && !Excluded(dir)
    requires IsPrefix(fs.mnt, NormalForm(dir))
    ensures !Excluded(Prepend(dir, rel))
  {
    assert "sys" + [SEP] == "sys/" && "proc" + [SEP] == "proc/";
    NotExcludedBehind(fs, dir, rel, "sys");
    NotExcludedBehind(fs, dir, rel, "proc");
  }

  lemma {:induction false} FullDirs(fs: Fs, dir: string, rel: string)
    requires DirsOnly(fs, [], Components(dir)) && DirsOnly(fs, NormalForm(dir), Components(rel))
    ensures NormalForm(Prepend(dir, rel)) == Normalise(NormalForm(dir), Components(rel))
    ensures DirsOnly(fs, [], Components(Prepend(dir, rel)))
  {
    ComponentsConcat(dir, rel);
    NormaliseConcat([], Components(dir), Components(rel));
    DirsOnlyConcat(fs, [], Components(dir), Components(rel));
  }

  /** What an internal answer says of a directory. */
  lemma {:induction false} InternalDir(fs: Fs, dir: string, followLast: bool)
    requires fs.Valid() && dir != "" && dir[0] == SEP && DirsOnly(fs, [], Components(dir))
    requires Resolved(fs, dir, followLast).Internal?
    ensures !Excluded(dir) && IsPrefix(fs.mnt, NormalForm(dir)) && AllNames(NormalForm(dir))
    ensures Resolved(fs, dir, followLast).path == PrintRoot(NormalForm(dir)[|fs.mnt|..])
  {
    DirsAnswer(fs, dir, followLast);
    WordsAreWords("", dir);
    NormaliseKeepsNames([], Components(dir));
  }

  /** For an internal directory dir: changing into it and using a relative path, looking the path up by
      a descriptor of it, and resolving dir/rel all give the same answer, whatever mix of names, "."
      and ".." the paths are. The mount directory is not below /sys or /proc. */
  lemma {:induction false} RelativeAgrees(fs: Fs, dir: string, rel: string, followLast: bool)
    requires fs.Valid() && MountExists(fs) && dir != "" && dir[0] == SEP && !System(fs.mnt[0])
    requires DirsOnly(fs, [], Components(dir)) && DirsOnly(fs, NormalForm(dir), Components(rel))
    requires Resolved(fs, dir, followLast).Internal?
    ensures var internal := Resolved(fs, dir, followLast).path;
      var answer := Answer(fs, NormalForm(Prepend(dir, rel)));
      && Resolved(fs, Prepend(Cwd(fs, internal), rel), followLast) == answer
      && Resolved(fs, FdPath(fs, internal, rel), followLast) == answer
      && Resolved(fs, Prepend(dir, rel), followLast) == answer
  {
    InternalDir(fs, dir, followLast);
    InsideAgrees(fs, NormalForm(dir), rel, followLast);
    FullOutside(fs, dir, rel);
    FullDirs(fs, dir, rel);
    DirsAnswer(fs, Prepend(dir, rel), followLast);
  }

  // ---- The mount directory ----

  predicate AllNoSlash(s: seq<string>) { forall i :: 0 <= i < |s| ==> NoSlash(s[i]) }

  /** The tokens of an absolute path: what stands between the slashes, printed back with a trailing
      slash if there was one. */
  predicate Split(abs: string, tokens: seq<string>) {
    abs != "" && AllNoSlash(tokens) && abs == Join(tokens) + (if abs[|abs| - 1] == SEP then [SEP] else "")
  }

  /** Absolute paths are split as they are, others as if a slash came first. */
  function Absolute(path: string): string { LeadingSlash(path) + path }

  function LeadingSlash(path: string): string { if path != "" && path[0] == SEP then "" else [SEP] }

  /** The state of split_path in front of index end, or behind the last token. */
  ghost predicate Splitting(pre: string, path: string, tokens: seq<string>, end: nat) {
    && path != "" && AllNoSlash(tokens) && end <= |path| + 1
    && (end <= |path| ==> (pre + path)[..|pre| + end] == Join(tokens) + [SEP])
    && (end == |path| + 1 ==> pre + path == Join(tokens) && path[|path| - 1] != SEP)
  }

  lemma PrefixWith(pre: string, path: string, k: nat)
    requires k <= |path|
    ensures (pre + path)[..|pre| + k] == pre + path[..k]
  {
  }

  lemma PrefixMore(pre: string, path: string, start: nat, end: nat)
    requires start <= end <= |path|
    ensures (pre + path)[..|pre| + end] == (pre + path)[..|pre| + start] + path[start..end]
  {
    PrefixWith(pre, path, start);
    PrefixWith(pre, path, end);
    assert path[..end] == path[..start] + path[start..end];
    assert pre + (path[..start] + path[start..end]) == (pre + path[..start]) + path[start..end];
  }

  /** The absolute form up to the end of a token. */
  lemma TokenAt(path: string, pre: string, start: nat, end: nat, token: string)
    requires start <= end <= |path| && token == path[start..end] && (end < |path| ==> path[end] == SEP)
    ensures (pre + path)[..|pre| + end] == (pre + path)[..|pre| + start] + token
    ensures end < |path| ==> (pre + path)[..|pre| + end + 1] == (pre + path)[..|pre| + end] + [SEP]
    ensures end == |path| ==> (pre + path)[..|pre| + end] == pre + path
    ensures end == |path| && token != "" ==> path[|path| - 1] == token[|token| - 1]
  {
    PrefixMore(pre, path, start, end);
    if end < |path| {
      PrefixMore(pre, path, end, end + 1);
      assert path[end..end + 1] == [SEP];
    }
  }

  lemma {:induction false} SplitStep(pre: string, path: string, tokens: seq<string>, start: nat, end: nat,
                                     token: string)
    requires Splitting(pre, path, tokens, start) && start < |path| && end == FindSlash(path, start)
      && token == path[start..end]
    ensures Splitting(pre, path, tokens + [token], end + 1)
  {
    FindSlashClear(path, start);
    TokenAt(path, pre, start, end, token);
    JoinSnoc(tokens, token);
  }

  lemma SplitStart(path: string)
    requires path != ""
    ensures Splitting(LeadingSlash(path), path, [], if path[0] != SEP then 0 else 1)
  {
    assert Absolute(path)[..1] == [SEP] && Join([]) + [SEP] == [SEP];
  }

  lemma SplitEnd(path: string, tokens: seq<string>, end: nat)
    requires Splitting(LeadingSlash(path), path, tokens, end) && end >= |path|
    ensures Split(Absolute(path), tokens)
  {
    var abs := Absolute(path);
    assert abs[|abs| - 1] == path[|path| - 1];
    if end == |path| {
      assert abs[..|abs|] == abs;
      assert abs[|abs| - 1] == (Join(tokens) + [SEP])[|Join(tokens)|];
    } else {
      assert Join(tokens) + "" == Join(tokens);
    }
  }

  /** split_path, which gives the mount components. */
  method SplitPath(path: string) returns (tokens: seq<string>)
    requires path != ""
    ensures Split(Absolute(path), tokens)
  {
    tokens := [];
    var end := if path[0] != SEP then 0 else 1;
    SplitStart(path);
    while end < |path|
      invariant Splitting(LeadingSlash(path), path, tokens, end)
      decreases |path| + 1 - end
    {
      var start := end;
      end := FindSlash(path, start);
      SplitStep(LeadingSlash(path), path, tokens, start, end, path[start..end]);
      tokens := tokens + [path[start..end]];
      end := end + 1;
    }
    SplitEnd(path, tokens, end);
  }

  lemma {:induction false} LastToken(p: string, x: string, c: string)
    requires p == x + [SEP] + c && NoSlash(c)
    ensures LastSlash(p, |p|) == |x| && p[..|x|] == x && p[|x| + 1..] == c
  {
    forall k | |x| < k < |p| ensures p[k] != SEP { assert p[k] == c[k - |x| - 1]; }
    LastSlashAt(p, |p|, |x|);
  }

  /** Printing tokens loses nothing. */
  lemma {:induction false} JoinInjective(a: seq<string>, b: seq<string>)
    requires AllNoSlash(a) && AllNoSlash(b) && Join(a) == Join(b)
    ensures a == b
  {
    if a != [] && b != [] {
      var a0, b0, c, d := a[..|a| - 1], b[..|b| - 1], a[|a| - 1], b[|b| - 1];
      LastToken(Join(a), Join(a0), c);
      LastToken(Join(b), Join(b0), d);
      JoinInjective(a0, b0);
    } else {
      if a != [] { JoinStarts(a); }
      if b != [] { JoinStarts(b); }
    }
  }

  /** A path has at most one splitting, and that of a canonical path are its components. */
  lemma {:induction false} SplitCanonical(abs: string, tokens: seq<string>, s: seq<string>)
    requires Split(abs, tokens)
    ensures Split(abs, s) ==> s == tokens
    ensures AllNames(s) && abs == PrintRoot(s) ==> s == tokens
  {
    if AllNames(s) && abs == PrintRoot(s) {
      assert AllNoSlash(s);
      if s != [] { JoinLength(s); }
      assert Join(s) + "" == Join(s);
    }
    if AllNoSlash(s) && abs == Join(s) + (if abs[|abs| - 1] == SEP then [SEP] else "") {
      var n := |Join(s)|;
      assert abs[..n] == Join(s) && abs[..n] == Join(tokens);
      JoinInjective(s, tokens);
    }
  }
}
