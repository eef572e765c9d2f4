/** src/client/path.cpp, resolve, after a link to the root directory: realpath then prints a slash, and
    every component entered behind it adds another. When exactly that second slash reaches the answer. */
module RootLinks {
  import opened PathNames
  import opened PathResolve

  /** The path that resolve answers with starts with two slashes. */
  predicate Doubled(r: Result) {
    match r
    case Internal(p) => |p| >= 2 && p[0] == SEP && p[1] == SEP
    case External(p) => |p| >= 2 && p[0] == SEP && p[1] == SEP
    case OutOfRange => false
  }

  /** Outside the mount directory component c, which ends at index end, is a link to the root and is followed. */
  predicate FollowsToRoot(fs: Fs, path: string, followLast: bool, end: nat, at: Place, c: string) {
    && !IsPrefix(fs.mnt, at.stack) && fs.lstat(at.Down(c).Print()).Link? && (followLast || end != |path|)
    && fs.realpath(at.Down(c).Print()) == Real([])
  }

  /** The walk from pos and at follows a link to the root whose name ends at index end. */
  predicate LinkToRoot(fs: Fs, path: string, followLast: bool, pos: nat, at: Place, end: nat)
    decreases |path| - pos
  {
    pos + 1 < |path| &&
    var start := SkipSlashes(path, pos + 1);
    var stop := FindSlash(path, start);
    start != stop &&
    if path[start..stop] == "." then LinkToRoot(fs, path, followLast, stop, at, end)
    else if path[start..stop] == ".." then LinkToRoot(fs, path, followLast, stop, at.Up(), end)
    else
      || (stop == end && FollowsToRoot(fs, path, followLast, stop, at, path[start..stop]))
      || (match Look(fs, path, followLast, stop, at, path[start..stop])
          case Go(next) => LinkToRoot(fs, path, followLast, stop, next, end)
          case Stop(_) => false)
  }

  /** Something is left to print behind the mount directory, or behind the root. */
  predicate Below(fs: Fs, s: seq<string>) { if IsPrefix(fs.mnt, s) then |s| > |fs.mnt| else s != [] }

  /** From pos on, below the root that a link led to: no ".." climbs above that root, no further link is
      followed, and the walk ends below it, or stops at a name that is missing, that cannot be
      resolved, or that is no directory although more follows. */
  predicate Stays(fs: Fs, path: string, followLast: bool, pos: nat, s: seq<string>)
    decreases |path| - pos
  {
    if pos + 1 >= |path| then Below(fs, s)
    else
      var start := SkipSlashes(path, pos + 1);
      var stop := FindSlash(path, start);
      if start == stop then Below(fs, s)
      else if path[start..stop] == "." then Stays(fs, path, followLast, stop, s)
      else if path[start..stop] == ".." then s != [] && Stays(fs, path, followLast, stop, s[..|s| - 1])
      else if IsPrefix(fs.mnt, s) then Stays(fs, path, followLast, stop, s + [path[start..stop]])
      else
        var name := [SEP] + Join(s + [path[start..stop]]);
        match fs.lstat(name)
        case Missing => true
        case Link =>
          if !followLast && stop == |path| then Stays(fs, path, followLast, stop, s + [path[start..stop]])
          else fs.realpath(name).NoPath?
        case Other => stop != |path| || Stays(fs, path, followLast, stop, s + [path[start..stop]])
        case Directory => Stays(fs, path, followLast, stop, s + [path[start..stop]])
  }

  /** The walk from pos and at follows a link to the root and stays below it to the end. */
  ghost predicate EndsBelowRoot(fs: Fs, path: string, followLast: bool, pos: nat, at: Place) {
    exists end: nat :: LinkToRoot(fs, path, followLast, pos, at, end) && Stays(fs, path, followLast, end, [])
  }

  // ---- Printing ----

  lemma {:induction false} JoinSecond(s: seq<string>)
    requires s != [] && AllNames(s)
    ensures |Join(s)| >= 2 && Join(s)[0] == SEP && Join(s)[1] != SEP
  {
    var init, last := s[..|s| - 1], s[|s| - 1];
    assert s == init + [last] && IsName(last);
    JoinSnoc(init, last);
    if init != [] { JoinSecond(init); }
  }

  lemma PrintDoubles(at: Place, rest: string)
    requires at.Valid() && at.stack != []
    ensures Doubled(External(at.Print() + rest)) <==> at.base != ""
  {
    JoinSecond(at.stack);
  }

  lemma {:induction false} FinishDoubles(fs: Fs, at: Place)
    requires fs.Valid() && at.Valid()
    ensures Doubled(Finish(fs, at)) <==> at.base != "" && Below(fs, at.stack)
  {
    var s := at.stack;
    if IsPrefix(fs.mnt, s) {
      var rest := s[|fs.mnt|..];
      assert fs.mnt + rest == s;
      JoinConcat(fs.mnt, rest);
      JoinSecond(fs.mnt);
      if rest != [] { JoinSecond(rest); }
      EraseDoubles(at.base, fs.MountDir(), Join(rest));
    } else if s != [] {
      PrintDoubles(at, "");
      assert at.Print() + "" == at.Print();
    }
  }

  lemma EraseDoubles(base: string, m: string, rest: string)
    requires (base == "" || base == [SEP]) && |m| >= 2 && m[0] == SEP && m[1] != SEP
    requires rest == "" || (|rest| >= 2 && rest[0] == SEP && rest[1] != SEP)
    ensures Doubled(Internal(EraseBehindFirst(base + (m + rest), |m|))) <==> base != "" && rest != ""
  {
    var p := base + (m + rest);
    if rest != "" {
      assert p[1 + |m|..] == if base == "" then rest[1..] else rest;
    }
  }

  // ---- The walk ----

  lemma {:induction false} NameAt(path: string, start: nat)
    requires start <= |path|
    ensures var stop := FindSlash(path, start);
      start <= stop <= |path| && (start != stop && path[start..stop] != "." && path[start..stop] != ".." ==> IsName(path[start..stop]))
  {
    FindSlashClear(path, start);
  }

  /** One component entered by its name: either the walk goes on or it stops, and the second slash stays
      exactly with the first component behind a link to the root. */
  lemma {:induction false} EnterDoubles(fs: Fs, path: string, followLast: bool, stop: nat, at: Place, c: string)
    requires fs.Valid() && at.Valid() && IsName(c) && stop <= |path|
    ensures match Look(fs, path, followLast, stop, at, c)
      case Go(next) =>
        && next.Valid()
        && (next == at.Down(c) || next.base == "" || FollowsToRoot(fs, path, followLast, stop, at, c))
      case Stop(r) => Doubled(r) <==> at.base != "" && r != OutOfRange
  {
    PrintDoubles(at.Down(c), path[stop..]);
  }

  /** Walks that follow the same links to the root end below one alike. */
  lemma {:induction false} SameLinks(fs: Fs, path: string, followLast: bool, pos: nat, at: Place, stop: nat,
                                     next: Place)
    requires forall end: nat ::
      LinkToRoot(fs, path, followLast, pos, at, end) <==> LinkToRoot(fs, path, followLast, stop, next, end)
    ensures EndsBelowRoot(fs, path, followLast, pos, at) <==> EndsBelowRoot(fs, path, followLast, stop, next)
  {
  }

  lemma {:induction false} UpDoubles(fs: Fs, path: string, followLast: bool, pos: nat, at: Place, start: nat, stop: nat)
    requires pos + 1 < |path| && start == SkipSlashes(path, pos + 1) && stop == FindSlash(path, start) && start < stop
    requires path[start..stop] == ".." && at.Valid()
    requires Doubled(Walk(fs, path, followLast, stop, at.Up()))
        <==> || (at.Up().base != "" && Stays(fs, path, followLast, stop, at.Up().stack))
             || EndsBelowRoot(fs, path, followLast, stop, at.Up())
    ensures Doubled(Walk(fs, path, followLast, pos, at))
       <==> || (at.base != "" && Stays(fs, path, followLast, pos, at.stack))
            || EndsBelowRoot(fs, path, followLast, pos, at)
  {
    SameLinks(fs, path, followLast, pos, at, stop, at.Up());
  }

  lemma {:induction false} DotDoubles(fs: Fs, path: string, followLast: bool, pos: nat, at: Place, start: nat,
                                      stop: nat)
    requires pos + 1 < |path| && start == SkipSlashes(path, pos + 1) && stop == FindSlash(path, start) && start < stop
    requires path[start..stop] == "."
    requires Doubled(Walk(fs, path, followLast, stop, at))
        <==> || (at.base != "" && Stays(fs, path, followLast, stop, at.stack))
             || EndsBelowRoot(fs, path, followLast, stop, at)
    ensures Doubled(Walk(fs, path, followLast, pos, at))
       <==> || (at.base != "" && Stays(fs, path, followLast, pos, at.stack))
            || EndsBelowRoot(fs, path, followLast, pos, at)
  {
    SameLinks(fs, path, followLast, pos, at, stop, at);
  }

  /** A name that ends the walk. */
  lemma {:induction false} StopDoubles(fs: Fs, path: string, followLast: bool, pos: nat, at: Place, start: nat,
                                       stop: nat)
    requires fs.Valid() && at.Valid()
    requires pos + 1 < |path| && start == SkipSlashes(path, pos + 1) && stop == FindSlash(path, start)
      && start < stop <= |path|
    requires IsName(path[start..stop]) && Look(fs, path, followLast, stop, at, path[start..stop]).Stop?
    ensures !EndsBelowRoot(fs, path, followLast, pos, at)
    ensures Doubled(Walk(fs, path, followLast, pos, at))
      <==> at.base != "" && Stays(fs, path, followLast, pos, at.stack)
  {
    EnterDoubles(fs, path, followLast, stop, at, path[start..stop]);
    assert at.base == [SEP] ==> [SEP] + Join(at.stack + [path[start..stop]]) == at.Down(path[start..stop]).Print();
  }

  /** A name behind which the walk goes on. */
  lemma {:induction false} GoDoubles(fs: Fs, path: string, followLast: bool, pos: nat, at: Place, start: nat,
                                     stop: nat, next: Place)
    requires fs.Valid() && at.Valid()
    requires pos + 1 < |path| && start == SkipSlashes(path, pos + 1) && stop == FindSlash(path, start)
      && start < stop <= |path|
    requires IsName(path[start..stop]) && Look(fs, path, followLast, stop, at, path[start..stop]) == Go(next)
    requires Doubled(Walk(fs, path, followLast, stop, next))
        <==> || (next.base != "" && Stays(fs, path, followLast, stop, next.stack))
             || EndsBelowRoot(fs, path, followLast, stop, next)
    ensures Doubled(Walk(fs, path, followLast, pos, at))
       <==> || (at.base != "" && Stays(fs, path, followLast, pos, at.stack))
            || EndsBelowRoot(fs, path, followLast, pos, at)
  {
    var c := path[start..stop];
    assert at.base == [SEP] ==> [SEP] + Join(at.stack + [c]) == at.Down(c).Print();
    if FollowsToRoot(fs, path, followLast, stop, at, c) {
      LinkStep(fs, path, followLast, pos, at, start, stop, next);
    } else {
      SameLinks(fs, path, followLast, pos, at, stop, next);
    }
  }

  lemma {:induction false} LinkStep(fs: Fs, path: string, followLast: bool, pos: nat, at: Place, start: nat,
                                    stop: nat, next: Place)
    requires pos + 1 < |path| && start == SkipSlashes(path, pos + 1) && stop == FindSlash(path, start)
      && start < stop <= |path|
    requires IsName(path[start..stop]) && FollowsToRoot(fs, path, followLast, stop, at, path[start..stop])
    requires Look(fs, path, followLast, stop, at, path[start..stop]) == Go(next)
    ensures EndsBelowRoot(fs, path, followLast, pos, at)
       <==> Stays(fs, path, followLast, stop, []) || EndsBelowRoot(fs, path, followLast, stop, next)
  {
    forall end: nat ensures LinkToRoot(fs, path, followLast, pos, at, end)
                       <==> stop == end || LinkToRoot(fs, path, followLast, stop, next, end)
    {
    }
    if Stays(fs, path, followLast, stop, []) { assert LinkToRoot(fs, path, followLast, pos, at, stop); }
  }

  /** From any point of the walk: the answer has two leading slashes exactly when the walk is below a
      link to the root and stays there, or comes below one later and stays there. */
  lemma {:induction false} WalkDoubles(fs: Fs, path: string, followLast: bool, pos: nat, at: Place)
    requires fs.Valid() && at.Valid()
    ensures Doubled(Walk(fs, path, followLast, pos, at))
       <==> || (at.base != "" && Stays(fs, path, followLast, pos, at.stack))
            || EndsBelowRoot(fs, path, followLast, pos, at)
    decreases |path| - pos
  {
    var start := SkipSlashes(path, pos + 1);
    var stop := FindSlash(path, start);
    if pos + 1 >= |path| || start == stop {
      FinishDoubles(fs, at);
    } else {
      NameAt(path, start);
      if path[start..stop] == "." {
        WalkDoubles(fs, path, followLast, stop, at);
        DotDoubles(fs, path, followLast, pos, at, start, stop);
      } else if path[start..stop] == ".." {
        WalkDoubles(fs, path, followLast, stop, at.Up());
        UpDoubles(fs, path, followLast, pos, at, start, stop);
      } else {
        EnterDoubles(fs, path, followLast, stop, at, path[start..stop]);
        match Look(fs, path, followLast, stop, at, path[start..stop])
        case Go(next) =>
          WalkDoubles(fs, path, followLast, stop, next);
          GoDoubles(fs, path, followLast, pos, at, start, stop, next);
        case Stop(_) =>
          StopDoubles(fs, path, followLast, pos, at, start, stop);
      }
    }
  }

  /** resolve answers with two leading slashes exactly when the path is not excluded, its walk follows a
      link to the root, and behind that link it follows no other, does not climb out with "..", and
      ends below. */
  lemma {:induction false} DoublesExactly(fs: Fs, path: string, followLast: bool)
    requires fs.Valid() && path != "" && path[0] == SEP
    ensures Doubled(Resolved(fs, path, followLast))
       <==> !Excluded(path) && EndsBelowRoot(fs, path, followLast, 0, Place("", []))
  {
    WalkDoubles(fs, path, followLast, 0, Place("", []));
    if Excluded(path) { assert path[1] != SEP by { ExcludedSecond(path); } }
  }

  lemma ExcludedSecond(path: string)
    requires Excluded(path)
    ensures |path| >= 2 && path[1] != SEP
  {
    if StartsAt(path, 1, "sys/") { assert path[1..5][0] == 's'; } else { assert path[1..6][0] == 'p'; }
  }

  // ---- Such paths ----

  /** Where the walk finds a component: behind x, before rest. */
  lemma {:induction false} FoundAt(path: string, x: string, c: string, rest: string)
    requires path == x + ([SEP] + c + rest) && IsName(c) && (rest == "" || rest[0] == SEP)
    ensures var start, stop := |x| + 1, |x| + 1 + |c|;
      && start < |path| && SkipSlashes(path, start) == start && FindSlash(path, start) == stop <= |path|
      && path[start..stop] == c && (stop == |path| <==> rest == "")
  {
    PartsFound(x, c, rest, path);
    assert path[|x| + 1] == c[0];
  }

  /** One name of the walk. */
  lemma {:induction false} WalkName(fs: Fs, path: string, followLast: bool, x: string, c: string, rest: string,
                                    end: nat, at: Place, next: Place)
    requires path == x + ([SEP] + c + rest) && IsName(c) && (rest == "" || rest[0] == SEP) && end == |x| + 1 + |c|
    requires Look(fs, path, followLast, end, at, c) == Go(next)
    ensures Walk(fs, path, followLast, |x|, at) == Walk(fs, path, followLast, end, next)
  {
    FoundAt(path, x, c, rest);
  }

  lemma RootLinkLook(fs: Fs, path: string, followLast: bool, end: nat, c: string)
    requires fs.Valid() && end < |path| && fs.lstat([SEP] + c).Link? && fs.realpath([SEP] + c) == Real([])
    ensures Look(fs, path, followLast, end, Place("", []), c) == Go(Place([SEP], []))
  {
    JoinSnoc([], c);
    assert Place("", []).Down(c).Print() == [SEP] + c;
  }

  /** A path behind a link c to the root goes on from a place that prints as a slash. */
  lemma {:induction false} BehindRootLink(fs: Fs, path: string, followLast: bool, c: string, rest: string)
    requires fs.Valid() && IsName(c) && rest != "" && rest[0] == SEP && path == "" + ([SEP] + c + rest)
    requires fs.lstat([SEP] + c).Link? && fs.realpath([SEP] + c) == Real([])
    ensures Walk(fs, path, followLast, 0, Place("", [])) == Walk(fs, path, followLast, 1 + |c|, Place([SEP], []))
  {
    RootLinkLook(fs, path, followLast, 1 + |c|, c);
    WalkName(fs, path, followLast, "", c, rest, 1 + |c|, Place("", []), Place([SEP], []));
  }

  lemma RootChild(d: string)
    ensures Place([SEP], []).Down(d) == Place([SEP], [d]) && Place([SEP], [d]).Print() == [SEP, SEP] + d
  {
    JoinSnoc([], d);
    assert [] + [d] == [d];
  }

  lemma OutsideFinish(fs: Fs, d: string)
    requires fs.Valid() && fs.mnt != [d]
    ensures Finish(fs, Place([SEP], [d])) == External([SEP, SEP] + d)
  {
    RootChild(d);
    assert [d][..1] == [d];
  }

  /** Whatever d is, if it is no link to follow. */
  lemma OutsideLook(fs: Fs, path: string, followLast: bool, d: string, n: string)
    requires fs.Valid() && n == [SEP, SEP] + d && (followLast ==> !fs.lstat(n).Link?)
    ensures Look(fs, path, followLast, |path|, Place([SEP], []), d) in {Go(Place([SEP], [d])), Stop(External(n))}
  {
    RootChild(d);
    assert path[|path|..] == "" && n + "" == n;
  }

  lemma {:induction false} LastName(fs: Fs, path: string, followLast: bool, x: string, d: string, at: Place,
                                    next: Place, r: Result)
    requires path == x + ([SEP] + d + "") && IsName(d) && Finish(fs, next) == r
    requires Look(fs, path, followLast, |path|, at, d) in {Go(next), Stop(r)}
    ensures Walk(fs, path, followLast, |x|, at) == r
  {
    FoundAt(path, x, d, "");
  }

  lemma {:induction false} OutsideLast(fs: Fs, path: string, followLast: bool, x: string, d: string, n: string)
    requires fs.Valid() && IsName(d) && path == x + ([SEP] + d + "")
    requires fs.mnt != [d] && n == [SEP, SEP] + d && (followLast ==> !fs.lstat(n).Link?)
    ensures Walk(fs, path, followLast, |x|, Place([SEP], [])) == External(n)
  {
    OutsideLook(fs, path, followLast, d, n);
    OutsideFinish(fs, d);
    LastName(fs, path, followLast, x, d, Place([SEP], []), Place([SEP], [d]), External(n));
  }

  lemma TwoNames(c: string, d: string, rest: string)
    ensures [SEP] + c + ([SEP] + d + rest) == "" + ([SEP] + c + ([SEP] + d + rest))
    ensures [SEP] + c + ([SEP] + d + rest) == ([SEP] + c) + ([SEP] + d + rest)
    ensures [SEP] + c + ([SEP] + d + rest) == ([SEP] + c + [SEP] + d) + rest
  {
  }

  /** With a link c to the root: /c/d is answered as //d, unless d is the mount directory or a link
      that is followed. */
  lemma {:induction false} OutsideDoubles(fs: Fs, path: string, c: string, d: string, followLast: bool)
    requires fs.Valid() && IsName(c) && IsName(d) && path == [SEP] + c + [SEP] + d
    requires fs.lstat([SEP] + c).Link? && fs.realpath([SEP] + c) == Real([])
    requires fs.mnt != [d] && (followLast ==> !fs.lstat([SEP, SEP] + d).Link?)
    ensures Walk(fs, path, followLast, 0, Place("", [])) == External([SEP, SEP] + d)
  {
    TwoNames(c, d, "");
    assert path == path + "";
    BehindRootLink(fs, path, followLast, c, [SEP] + d + "");
    OutsideLast(fs, path, followLast, [SEP] + c, d, [SEP, SEP] + d);
  }

  lemma {:induction false} InsideFinish(fs: Fs, m: string, x: string)
    requires fs.mnt == [m] && IsName(x)
    ensures Finish(fs, Place([SEP], [m, x])) == Internal([SEP, SEP] + x)
  {
    JoinSnoc([], m);
    JoinSnoc([m], x);
    assert [] + [m] == [m] && [m] + [x] == [m, x] && [m, x][..1] == [m];
    assert Place([SEP], [m, x]).Print() == [SEP] + ([SEP] + m) + ([SEP] + x);
  }

  lemma MountLook(fs: Fs, path: string, followLast: bool, end: nat, m: string)
    requires fs.mnt == [m] && fs.lstat([SEP, SEP] + m).Directory?
    ensures Look(fs, path, followLast, end, Place([SEP], []), m) == Go(Place([SEP], [m]))
  {
    RootChild(m);
  }

  lemma {:induction false} InsideLast(fs: Fs, path: string, followLast: bool, b: string, m: string, x: string)
    requires fs.mnt == [m] && IsName(x) && path == b + ([SEP] + x + "")
    ensures Walk(fs, path, followLast, |b|, Place([SEP], [m])) == Internal([SEP, SEP] + x)
  {
    assert [m] + [x] == [m, x] && [m][..1] == [m];
    assert Look(fs, path, followLast, |path|, Place([SEP], [m]), x) == Go(Place([SEP], [m, x]));
    InsideFinish(fs, m, x);
    LastName(fs, path, followLast, b, x, Place([SEP], [m]), Place([SEP], [m, x]), Internal([SEP, SEP] + x));
  }

  lemma {:induction false} ThroughMount(fs: Fs, path: string, followLast: bool, a: string, b: string, m: string,
                                        x: string, rest: string)
    requires fs.mnt == [m] && IsName(m) && IsName(x) && fs.lstat([SEP, SEP] + m).Directory?
    requires path == a + ([SEP] + m + rest) && path == b + rest && rest == [SEP] + x + ""
    ensures Walk(fs, path, followLast, |a|, Place([SEP], [])) == Internal([SEP, SEP] + x)
  {
    MountLook(fs, path, followLast, |a| + 1 + |m|, m);
    WalkName(fs, path, followLast, a, m, rest, |a| + 1 + |m|, Place([SEP], []), Place([SEP], [m]));
    InsideLast(fs, path, followLast, b, m, x);
  }

  /** With the mount directory m in the root: /c/m/x is answered as //x. */
  lemma {:induction false} InsideDoubles(fs: Fs, path: string, c: string, m: string, x: string, followLast: bool)
    requires fs.Valid() && IsName(c) && IsName(m) && IsName(x) && fs.mnt == [m]
    requires path == [SEP] + c + [SEP] + m + [SEP] + x
    requires fs.lstat([SEP] + c).Link? && fs.realpath([SEP] + c) == Real([]) && fs.lstat([SEP, SEP] + m).Directory?
    ensures Walk(fs, path, followLast, 0, Place("", [])) == Internal([SEP, SEP] + x)
  {
    var rest := [SEP] + x + "";
    TwoNames(c, m, rest);
    assert path == ([SEP] + c + [SEP] + m) + rest;
    BehindRootLink(fs, path, followLast, c, [SEP] + m + rest);
    ThroughMount(fs, path, followLast, [SEP] + c, [SEP] + c + [SEP] + m, m, x, rest);
  }
}
