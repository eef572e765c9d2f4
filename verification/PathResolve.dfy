/** src/client/path.cpp: resolve edits one string in place and keeps two counters; the reference is a
    walk over a stack of components. lstat and realpath are oracles. */
module PathResolve {
  import opened PathNames

  datatype Kind = Missing | Link | Directory | Other

  /** realpath: an error, or the components of a canonical path. */
  datatype Real = NoPath | Real(stack: seq<string>)

  /** The components of the mount directory, and the file system outside it. */
  datatype Fs = Fs(mnt: seq<string>, lstat: string -> Kind, realpath: string -> Real) {
    ghost predicate Valid() {
      && mnt != [] && AllNames(mnt)
      && forall p :: realpath(p).Real? ==> AllNames(realpath(p).stack)
    }

    function MountDir(): string { Join(mnt) }
  }

  /** What resolve answers; OutOfRange is the exception of vector::at. */
  datatype Result = Internal(path: string) | External(path: string) | OutOfRange

  predicate IsPrefix(m: seq<string>, s: seq<string>) { |m| <= |s| && s[..|m|] == m }

  /** The resolved path so far: a stack, behind a slash when a link has led to the root. */
  datatype Place = Place(base: string, stack: seq<string>) {
    predicate Valid() { (base == "" || base == [SEP]) && AllNames(stack) }

    function Print(): string { base + Join(stack) }

    /** One level up; from the root a leftover slash goes. */
    function Up(): Place { if stack == [] then Place("", []) else Place(base, stack[..|stack| - 1]) }

    function Down(c: string): Place { Place(base, stack + [c]) }
  }

  function RealPlace(stack: seq<string>): Place { Place(if stack == [] then [SEP] else "", stack) }

  /** string::erase(1, n). */
  function EraseBehindFirst(s: string, n: nat): string {
    if |s| == 0 then s else if 1 + n >= |s| then s[..1] else s[..1] + s[1 + n..]
  }

  function Finish(fs: Fs, at: Place): Result {
    if IsPrefix(fs.mnt, at.stack) then Internal(EraseBehindFirst(at.Print(), |fs.MountDir()|))
    else if at.Print() == "" then External([SEP])
    else External(at.Print())
  }

  datatype Verdict = Go(at: Place) | Stop(r: Result)

  /** Entering component c, which ends at index end of the path. Only outside the mount directory is
      the file system asked. */
  function Look(fs: Fs, path: string, followLast: bool, end: nat, at: Place, c: string): Verdict {
    var next := at.Down(c);
    var rest := if end <= |path| then path[end..] else "";
    if IsPrefix(fs.mnt, at.stack) then Go(next)
    else match fs.lstat(next.Print())
      case Missing => Stop(External(next.Print() + rest))
      case Link =>
        if !followLast && end == |path| then Go(next)
        else (match fs.realpath(next.Print())
              case NoPath => Stop(External(next.Print() + rest))
              case Real(s) => if IsPrefix(fs.mnt, s) && s != fs.mnt then Stop(OutOfRange) else Go(RealPlace(s)))
      case Other => if end != |path| then Stop(External(next.Print() + rest)) else Go(next)
      case Directory => Go(next)
  }

  /** The walk over the components behind index pos. */
  function Walk(fs: Fs, path: string, followLast: bool, pos: nat, at: Place): Result
    decreases |path| - pos
  {
    if pos + 1 >= |path| then Finish(fs, at)
    else
      var start := SkipSlashes(path, pos + 1);
      var end := FindSlash(path, start);
      if start == end then Finish(fs, at)
      else if path[start..end] == "." then Walk(fs, path, followLast, end, at)
      else if path[start..end] == ".." then Walk(fs, path, followLast, end, at.Up())
      else
        match Look(fs, path, followLast, end, at, path[start..end])
        case Go(next) => Walk(fs, path, followLast, end, next)
        case Stop(r) => r
  }

  // ---- The counters ----

  /** k is the length of the common prefix. */
  ghost predicate Common(m: seq<string>, s: seq<string>, k: nat) {
    && k <= |m| && k <= |s| && m[..k] == s[..k] && (k < |m| && k < |s| ==> m[k] != s[k])
  }

  /** matched_components: the common prefix outside the mount directory, the depth inside. */
  ghost predicate Matched(m: seq<string>, s: seq<string>, k: nat) {
    if IsPrefix(m, s) then k == |s| else Common(m, s, k)
  }

  lemma MatchedInside(m: seq<string>, s: seq<string>, k: nat)
    requires Matched(m, s, k)
    ensures IsPrefix(m, s) <==> k >= |m|
  {
  }

  lemma MatchedUp(m: seq<string>, s: seq<string>, k: nat)
    requires Matched(m, s, k) && s != []
    ensures Matched(m, s[..|s| - 1], if k == |s| then k - 1 else k)
  {
    var init := s[..|s| - 1];
    if k < |s| && k < |m| && k < |init| { assert init[k] == s[k]; }
    if k <= |init| { assert init[..k] == s[..k]; }
  }

  lemma MatchedDown(m: seq<string>, s: seq<string>, k: nat, c: string)
    requires Matched(m, s, k)
    ensures Matched(m, s + [c], if k >= |m| || (k == |s| && c == m[k]) then k + 1 else k)
  {
    var next := s + [c];
    if k >= |m| {
      assert next[..|m|] == s[..|m|];
    } else {
      assert next[..k] == s[..k];
      if k == |s| && c == m[k] {
        assert next[..k + 1] == m[..k + 1];
      }
    }
  }

  // ---- match_components ----

  lemma {:induction false} JoinStarts(s: seq<string>)
    requires s != []
    ensures Join(s) != "" && Join(s)[0] == SEP
  {
    if |s| > 1 { JoinStarts(s[..|s| - 1]); }
  }

  lemma JoinParts(s: seq<string>, k: nat)
    requires k < |s|
    ensures Join(s) == Join(s[..k]) + ([SEP] + s[k] + Join(s[k + 1..]))
    ensures |Join(s[..k + 1])| == |Join(s[..k])| + 1 + |s[k]|
  {
    assert s[..k] + [s[k]] == s[..k + 1];
    JoinSnoc(s[..k], s[k]);
    assert s[..k + 1] + s[k + 1..] == s;
    JoinConcat(s[..k + 1], s[k + 1..]);
  }

  /** Component k of a printed stack, found from the separator before it. */
  lemma CompOfJoin(s: seq<string>, k: nat)
    requires AllNames(s) && k < |s|
    ensures var p, a, b := Join(s), |Join(s[..k])|, |Join(s[..k + 1])|;
      a + 1 < b <= |p| && FindSlash(p, a + 1) == b && p[a + 1..b] == s[k]
  {
    var p, a, c, rest := Join(s), |Join(s[..k])|, s[k], Join(s[k + 1..]);
    var b := a + 1 + |c|;
    JoinParts(s, k);
    if s[k + 1..] != [] { JoinStarts(s[k + 1..]); }
    assert IsName(c);
    PartsFound(Join(s[..k]), c, rest, p);
  }

  lemma PartsFound(x: string, c: string, rest: string, p: string)
    requires p == x + ([SEP] + c + rest) && NoSlash(c) && (rest == "" || rest[0] == SEP)
    ensures FindSlash(p, |x| + 1) == |x| + 1 + |c| && p[|x| + 1..|x| + 1 + |c|] == c
  {
    var a, b := |x| + 1, |x| + 1 + |c|;
    assert p[a..b] == c;
    forall k | a <= k < b ensures p[k] != SEP { assert p[k] == c[k - a]; }
    assert rest != "" ==> p[b] == rest[0];
    FindSlashStops(p, a, b);
  }

  /** State of the loop in front of component k. */
  ghost predicate Scanned(mnt: seq<string>, s: seq<string>, path: string, k: nat, matched: nat, end: nat) {
    && AllNames(s) && path == RealPlace(s).Print() && k <= |s| && end == |Join(s[..k])|
    && Common(mnt, s[..k], matched) && (matched == |mnt| ==> k == matched)
  }

  lemma {:induction false} ScanComponent(mnt: seq<string>, s: seq<string>, path: string, k: nat, matched: nat, end: nat)
    requires Scanned(mnt, s, path, k, matched, end)
    ensures k < |s| <==> end + 1 < |path|
    ensures k < |s| ==> var b := FindSlash(path, end + 1);
      end + 1 <= b <= |path| && b == |Join(s[..k + 1])| && path[end + 1..b] == s[k]
  {
    assert s[..|s|] == s;
    if k < |s| {
      assert path == Join(s);
      CompOfJoin(s, k);
    }
  }

  /** match_components on a canonical path. It throws exactly when the mount components are a proper
      prefix of the path's, because it then asks for a mount component behind the last. */
  method MatchComponents(path: string, mnt: seq<string>, ghost s: seq<string>)
    returns (matched: nat, components: nat, threw: bool)
    requires AllNames(s) && path == RealPlace(s).Print()
    ensures threw <==> IsPrefix(mnt, s) && s != mnt
    ensures !threw ==> components == |s| && Matched(mnt, s, matched)
  {
    matched, components, threw := 0, 0, false;
    var end: nat := 0;
    while end + 1 < |path|
      invariant Scanned(mnt, s, path, components, matched, end)
      decreases |s| - components
    {
      ScanComponent(mnt, s, path, components, matched, end);
      var start := end + 1;
      end := FindSlash(path, start);
      if matched == components && matched >= |mnt| {
        MountIsPrefix(mnt, s, components, matched);
        return matched, components, true;
      }
      CommonStep(mnt, s, components, matched);
      if matched == components && path[start..end] == mnt[matched] {
        matched := matched + 1;
      }
      components := components + 1;
    }
    ScanComponent(mnt, s, path, components, matched, end);
    CommonAll(mnt, s, matched);
  }

  lemma MountIsPrefix(m: seq<string>, s: seq<string>, k: nat, matched: nat)
    requires k < |s| && Common(m, s[..k], matched) && matched == k >= |m|
    ensures IsPrefix(m, s) && s != m
  {
    assert s[..k][..matched] == s[..|m|];
  }

  lemma CommonStep(m: seq<string>, s: seq<string>, k: nat, matched: nat)
    requires k < |s| && Common(m, s[..k], matched)
    ensures Common(m, s[..k + 1], if matched == k < |m| && s[k] == m[matched] then matched + 1 else matched)
  {
    var next := s[..k + 1];
    assert next[..matched] == s[..k][..matched];
    if matched == k < |m| && s[k] == m[matched] {
      assert next[..k + 1] == m[..k + 1];
    } else if matched < k {
      assert next[matched] == s[..k][matched];
    }
  }

  lemma CommonAll(m: seq<string>, s: seq<string>, matched: nat)
    requires Common(m, s[..|s|], matched) && (matched == |m| ==> |s| == matched)
    ensures Matched(m, s, matched) && !(IsPrefix(m, s) && s != m)
  {
    assert s[..|s|] == s;
  }

  // ---- resolve ----

  lemma LastSlashOfPlace(at: Place)
    requires at.Valid() && at.Print() != ""
    ensures var p := at.Print();
      LastSlash(p, |p|) == |at.Up().Print()| && p[..|at.Up().Print()|] == at.Up().Print()
  {
    if at.stack == [] {
      assert at.Print() == [SEP];
      LastSlashAt([SEP], 1, 0);
    } else {
      var init, last := at.stack[..|at.stack| - 1], at.stack[|at.stack| - 1];
      assert at.stack == init + [last];
      LastSlashOfJoin(at.base, init, last);
      JoinSnoc(init, last);
      assert at.Print() == (at.base + Join(init)) + ([SEP] + last);
    }
  }

  /** The edited string and the counters show a place. */
  ghost predicate Shows(fs: Fs, at: Place, resolved: string, lastSlash: int, matched: int, components: int) {
    && at.Valid() && resolved == at.Print() && components == |at.stack|
    && (resolved != "" ==> lastSlash == LastSlash(resolved, |resolved|))
    && matched >= 0 && Matched(fs.mnt, at.stack, matched)
  }

  /** What is left of this at the end of the path, after a last link that is not followed. */
  ghost predicate Ends(fs: Fs, at: Place, resolved: string, matched: int) {
    at.Valid() && resolved == at.Print() && (IsPrefix(fs.mnt, at.stack) <==> matched >= |fs.mnt|)
  }

  lemma ShowsEnds(fs: Fs, at: Place, resolved: string, lastSlash: int, matched: int, components: int)
    requires Shows(fs, at, resolved, lastSlash, matched, components)
    ensures Ends(fs, at, resolved, matched)
  {
    MatchedInside(fs.mnt, at.stack, matched);
  }

  /** The branch for "..". */
  method RollBack(fs: Fs, resolved0: string, lastSlash0: int, matched0: int, components0: int, ghost at: Place)
    returns (resolved: string, lastSlash: int, matched: int, components: int)
    requires Shows(fs, at, resolved0, lastSlash0, matched0, components0)
    ensures Shows(fs, at.Up(), resolved, lastSlash, matched, components)
  {
    resolved, lastSlash, matched, components := resolved0, lastSlash0, matched0, components0;
    if resolved != "" {
      LastSlashOfPlace(at);
      resolved := resolved[..lastSlash];
      lastSlash := LastSlash(resolved, |resolved|);
    }
    if components > 0 {
      MatchedUp(fs.mnt, at.stack, matched);
      if matched == components {
        matched := matched - 1;
      }
      components := components - 1;
    }
  }

  /** The branch for a name: resolved gets the component appended, and the counters follow. */
  method EnterName(fs: Fs, path: string, followLast: bool, start: nat, end: nat, resolved0: string,
                   matched0: int, components0: int, ghost lastSlash0: int, ghost at: Place)
    returns (stop: bool, result: Result, resolved: string, lastSlash: int, matched: int, components: int)
    requires fs.Valid() && start < end <= |path| && IsName(path[start..end])
    requires Shows(fs, at, resolved0, lastSlash0, matched0, components0)
    ensures match Look(fs, path, followLast, end, at, path[start..end])
      case Stop(r) => stop && result == r
      case Go(next) =>
        && !stop && Ends(fs, next, resolved, matched)
        && (end < |path| ==> Shows(fs, next, resolved, lastSlash, matched, components))
  {
    ghost var next := at.Down(path[start..end]);
    resolved := resolved0 + [SEP];
    lastSlash := |resolved| - 1;
    resolved := resolved + path[start..end];
    matched, components, stop, result := matched0, components0, false, External("");
    DownShows(fs, at, resolved0, lastSlash0, matched0, components0, path[start..end]);
    if matched < |fs.mnt| {
      if matched == components && path[start..end] == fs.mnt[matched] {
        matched := matched + 1;
      }
      var kind := fs.lstat(resolved);
      if kind.Missing? {
        return true, External(resolved + path[end..]), resolved, lastSlash, matched, components;
      }
      if kind.Link? {
        if !followLast && end == |path| {
          return;
        }
        var linked := fs.realpath(resolved);
        if linked.NoPath? {
          return true, External(resolved + path[end..]), resolved, lastSlash, matched, components;
        }
        resolved := RealPlace(linked.stack).Print();
        var threw;
        matched, components, threw := MatchComponents(resolved, fs.mnt, linked.stack);
        if threw {
          return true, OutOfRange, resolved, lastSlash, matched, components;
        }
        lastSlash := LastSlash(resolved, |resolved|);
        ShowsEnds(fs, RealPlace(linked.stack), resolved, lastSlash, matched, components);
        return;
      } else if !kind.Directory? && end != |path| {
        return true, External(resolved + path[end..]), resolved, lastSlash, matched, components;
      }
    } else {
      matched := matched + 1;
    }
    components := components + 1;
  }

  lemma DownPrints(at: Place, c: string)
    requires NoSlash(c)
    ensures at.Down(c).Print() == at.Print() + [SEP] + c
    ensures var p := at.Down(c).Print(); LastSlash(p, |p|) == |at.Print()|
  {
    JoinSnoc(at.stack, c);
    LastSlashOfJoin(at.base, at.stack, c);
  }

  /** Pushing a name: the string, the last slash and the counters of the new place. */
  lemma DownShows(fs: Fs, at: Place, resolved: string, lastSlash: int, matched: int, components: int, c: string)
    requires Shows(fs, at, resolved, lastSlash, matched, components) && IsName(c)
    ensures var matched' := if matched >= |fs.mnt| || (matched == components && c == fs.mnt[matched])
      then matched + 1 else matched;
      && Shows(fs, at.Down(c), resolved + [SEP] + c, |resolved|, matched', components + 1)
      && Ends(fs, at.Down(c), resolved + [SEP] + c, matched')
    ensures IsPrefix(fs.mnt, at.stack) <==> matched >= |fs.mnt|
  {
    var matched' := if matched >= |fs.mnt| || (matched == components && c == fs.mnt[matched]) then matched + 1
      else matched;
    DownPrints(at, c);
    MatchedDown(fs.mnt, at.stack, matched, c);
    MatchedInside(fs.mnt, at.stack, matched);
    MatchedInside(fs.mnt, at.Down(c).stack, matched');
  }

  predicate StartsAt(p: string, i: nat, x: string) { i + |x| <= |p| && p[i..i + |x|] == x }

  predicate Excluded(path: string) { StartsAt(path, 1, "sys/") || StartsAt(path, 1, "proc/") }

  /** What resolve answers for an absolute path. */
  function Resolved(fs: Fs, path: string, followLast: bool): Result {
    if Excluded(path) then External(path) else Walk(fs, path, followLast, 0, Place("", []))
  }

  /** State of the main loop: the walk from here gives the result of the whole walk. */
  ghost predicate AtLoop(fs: Fs, path: string, followLast: bool, end: nat, at: Place, resolved: string,
                         lastSlash: int, matched: int, components: int)
  {
    && end <= |path| && Ends(fs, at, resolved, matched)
    && (end < |path| ==> Shows(fs, at, resolved, lastSlash, matched, components))
    && Walk(fs, path, followLast, 0, Place("", [])) == Walk(fs, path, followLast, end, at)
  }

  method Skip(path: string, i: nat) returns (start: nat)
    requires i <= |path|
    ensures start == SkipSlashes(path, i) <= |path|
  {
    start := i;
    while start < |path| && path[start] == SEP
      invariant start <= |path| && SkipSlashes(path, i) == SkipSlashes(path, start)
    {
      start := start + 1;
    }
  }

  /** resolve computes the walk. */
  method Resolve(fs: Fs, path: string, followLast: bool) returns (result: Result)
    requires fs.Valid() && path != "" && path[0] == SEP
    ensures result == Resolved(fs, path, followLast)
  {
    if StartsAt(path, 1, "sys/") || StartsAt(path, 1, "proc/") {
      return External(path);
    }
    var matched, components, end, lastSlash, resolved := 0, 0, 0, 0, "";
    ghost var at := Place("", []);
    while end + 1 < |path|
      invariant AtLoop(fs, path, followLast, end, at, resolved, lastSlash, matched, components)
      decreases |path| - end
    {
      var start := Skip(path, end + 1);
      ghost var pos := end;
      end := FindSlash(path, start);
      FindSlashClear(path, start);
      if start == end {
        assert Walk(fs, path, followLast, pos, at) == Finish(fs, at);
        break;
      }
      if path[start..end] == "." { continue; }
      if path[start..end] == ".." {
        resolved, lastSlash, matched, components := RollBack(fs, resolved, lastSlash, matched, components, at);
        at := at.Up();
        ShowsEnds(fs, at, resolved, lastSlash, matched, components);
        continue;
      }
      var stop;
      stop, result, resolved, lastSlash, matched, components :=
        EnterName(fs, path, followLast, start, end, resolved, matched, components, lastSlash, at);
      if stop { return; }
      at := Look(fs, path, followLast, end, at, path[start..end]).at;
    }
    if matched >= |fs.mnt| {
      return Internal(EraseBehindFirst(resolved, |fs.MountDir()|));
    }
    if resolved == "" {
      resolved := [SEP];
    }
    result := External(resolved);
  }
}
