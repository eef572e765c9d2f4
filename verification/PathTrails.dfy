/** What resolve answers for any path, said without its walk: the path is cut at the links that are
    followed, and its end is plain, or has a name at which resolve gives up. */
module PathTrails {
  import opened PathNames
  import opened PathResolve
  import opened PathSemantics
  import opened RootLinks

  // ---- Directories only ----

  /** A part of a path: it begins where a component has ended. */
  predicate Begins(p: string) { p == "" || p[0] == SEP }

  lemma {:induction false} SkipUpTo(path: string, i: nat, upto: nat)
    requires i <= upto <= |path|
    ensures SkipSlashes(path[..upto], i) == if SkipSlashes(path, i) < upto then SkipSlashes(path, i) else upto
    decreases upto - i
  {
    if i < upto {
      assert path[..upto][i] == path[i];
      if path[i] == SEP { SkipUpTo(path, i + 1, upto); }
    } else {
      assert SkipSlashes(path[..upto], i) == i;
    }
  }

  lemma {:induction false} FindUpTo(path: string, i: nat, upto: nat)
    requires i <= upto <= |path| && (upto < |path| ==> path[upto] == SEP)
    ensures FindSlash(path, i) <= upto && FindSlash(path[..upto], i) == FindSlash(path, i)
    decreases upto - i
  {
    if i < upto {
      assert path[..upto][i] == path[i];
      if path[i] != SEP { FindUpTo(path, i + 1, upto); }
    }
  }

  /** The walk does not see how many separators follow each other. */
  lemma {:induction false} WalkSlashes(fs: Fs, path: string, followLast: bool, pos: nat, upto: nat, at: Place)
    requires pos <= upto <= |path| && Begins(path[upto..]) && (pos < upto ==> SkipSlashes(path, pos + 1) >= upto)
    ensures Walk(fs, path, followLast, pos, at) == Walk(fs, path, followLast, upto, at)
    decreases upto - pos
  {
    if pos < upto {
      if pos + 1 == |path| {
        assert upto == |path|;
      } else if pos + 1 < upto {
        assert path[pos + 1] == SEP;
        WalkSlashes(fs, path, followLast, pos + 1, upto, at);
      } else {
        assert path[upto] == path[upto..][0] == SEP;
      }
    }
  }

  lemma TakeSlices(path: string, upto: nat, a: nat, b: nat)
    requires a <= b <= upto <= |path|
    ensures path[..upto][a..b] == path[a..b] && path[..upto][b..] == path[b..upto]
  {
  }

  /** The first word of the part of a path between pos and upto. */
  lemma {:induction false} FirstOfPart(path: string, pos: nat, upto: nat, start: nat, end: nat)
    requires pos < upto <= |path| && path[pos] == SEP && Begins(path[upto..])
    requires start == SkipSlashes(path, pos + 1) && end == FindSlash(path, start)
    ensures start >= upto ==> Components(path[pos..upto]) == []
    ensures start < upto ==>
      && pos < start < end <= upto && Begins(path[end..])
      && Components(path[pos..upto]) == [path[start..end]] + Components(path[end..upto])
  {
    var q := path[..upto];
    assert q[pos..] == path[pos..upto];
    SkipUpTo(path, pos + 1, upto);
    SkipKeepsWords(q, pos);
    assert SkipSlashes(q, pos) == SkipSlashes(q, pos + 1);
    if start < upto {
      FindUpTo(path, start, upto);
      SkipStops(path, pos + 1);
      FirstWord(q, start);
      FindSlashClear(path, start);
      TakeSlices(path, upto, start, end);
    } else {
      assert q[upto..] == "";
    }
  }

  /** Through directories the walk comes to the normal form. */
  lemma {:induction false} WalkDirs(fs: Fs, path: string, followLast: bool, pos: nat, upto: nat, s: seq<string>)
    requires pos <= upto <= |path| && Begins(path[pos..]) && Begins(path[upto..])
    requires DirsOnly(fs, s, Components(path[pos..upto]))
    ensures Walk(fs, path, followLast, pos, Place("", s))
         == Walk(fs, path, followLast, upto, Place("", Normalise(s, Components(path[pos..upto]))))
    decreases upto - pos
  {
    if pos == upto {
      assert path[pos..upto] == "";
    } else {
      assert path[pos] == path[pos..][0];
      var start := SkipSlashes(path, pos + 1);
      var end := FindSlash(path, start);
      FirstOfPart(path, pos, upto, start, end);
      if start >= upto {
        WalkSlashes(fs, path, followLast, pos, upto, Place("", s));
      } else {
        DirsOnlyStep(fs, s, path[start..end], Components(path[end..upto]));
        NormaliseStep(s, path[start..end], Components(path[end..upto]));
        WalkStep(fs, path, followLast, pos, s, start, end);
        WalkDirs(fs, path, followLast, end, upto, Enter(s, path[start..end]));
      }
    }
  }

  /** What one component does to the walk. */
  function Turn(fs: Fs, path: string, followLast: bool, end: nat, at: Place, c: string): Verdict {
    if c == "." then Go(at) else if c == ".." then Go(at.Up()) else Look(fs, path, followLast, end, at, c)
  }

  lemma {:induction false} WalkTurn(fs: Fs, path: string, followLast: bool, pos: nat, at: Place, start: nat,
                                    end: nat, v: Verdict)
    requires pos + 1 < |path| && start == SkipSlashes(path, pos + 1) && end == FindSlash(path, start) && start != end
    requires v == Turn(fs, path, followLast, end, at, path[start..end])
    ensures Walk(fs, path, followLast, pos, at) == if v.Go? then Walk(fs, path, followLast, end, v.at) else v.r
  {
  }

  // ---- Links to the root ----

  /** An answer with one leading slash instead of two. */
  function Undouble(r: Result): Result {
    match r
    case Internal(p) => if Doubled(r) then Internal(p[1..]) else r
    case External(p) => if Doubled(r) then External(p[1..]) else r
    case OutOfRange => r
  }

  /** The file system does not distinguish //x from /x. */
  ghost predicate SlashBlind(fs: Fs) {
    forall p :: p != "" && p[0] == SEP ==>
      fs.lstat([SEP] + p) == fs.lstat(p) && fs.realpath([SEP] + p) == fs.realpath(p)
  }

  lemma {:induction false} PrintUndouble(s: seq<string>, c: string, rest: string)
    requires AllNames(s) && IsName(c)
    ensures var n := Join(s + [c]);
      && n != "" && n[0] == SEP && Place([SEP], s).Down(c).Print() == [SEP] + n && Place("", s).Down(c).Print() == n
      && Undouble(External([SEP] + n + rest)) == Undouble(External(n + rest)) == External(n + rest)
  {
    JoinSecond(s + [c]);
    assert ([SEP] + Join(s + [c]) + rest)[1..] == Join(s + [c]) + rest;
  }

  lemma {:induction false} EraseUndouble(m: string, rest: string)
    requires m != "" && m[0] == SEP && (rest == "" || (|rest| >= 2 && rest[0] == SEP && rest[1] != SEP))
    ensures Undouble(Internal(EraseBehindFirst([SEP] + (m + rest), |m|)))
         == Undouble(Internal(EraseBehindFirst(m + rest, |m|)))
  {
    var a, b := [SEP] + (m + rest), m + rest;
    if rest != "" {
      assert a[1 + |m|..] == rest && b[1 + |m|..] == rest[1..];
      assert EraseBehindFirst(a, |m|) == [SEP] + rest && EraseBehindFirst(b, |m|) == rest;
      assert ([SEP] + rest)[1..] == rest;
    }
  }

  lemma {:induction false} FinishUndouble(fs: Fs, s: seq<string>)
    requires fs.Valid() && AllNames(s)
    ensures Undouble(Finish(fs, Place([SEP], s))) == Undouble(Finish(fs, Place("", s)))
  {
    if IsPrefix(fs.mnt, s) {
      var rest := s[|fs.mnt|..];
      assert fs.mnt + rest == s;
      JoinConcat(fs.mnt, rest);
      JoinSecond(fs.mnt);
      if rest != [] { JoinSecond(rest); }
      EraseUndouble(fs.MountDir(), Join(rest));
      assert Place("", s).Print() == Join(s);
    } else if s != [] {
      var init, last := s[..|s| - 1], s[|s| - 1];
      assert s == init + [last];
      PrintUndouble(init, last, "");
      assert Join(s) + "" == Join(s) && [SEP] + Join(s) + "" == [SEP] + Join(s);
    }
  }

  lemma {:induction false} LookBlind(fs: Fs, path: string, followLast: bool, end: nat, s: seq<string>, c: string)
    requires fs.Valid() && SlashBlind(fs) && AllNames(s) && IsName(c)
    ensures var a, b := Look(fs, path, followLast, end, Place([SEP], s), c), Look(fs, path, followLast, end, Place("", s), c);
      && (a.Stop? <==> b.Stop?) && (a.Stop? ==> Undouble(a.r) == Undouble(b.r))
      && (a.Go? ==> a == b || (a.at == Place([SEP], s + [c]) && b.at == Place("", s + [c])))
  {
    var n, rest := Join(s + [c]), if end <= |path| then path[end..] else "";
    PrintUndouble(s, c, rest);
    assert fs.lstat([SEP] + n) == fs.lstat(n) && fs.realpath([SEP] + n) == fs.realpath(n);
  }

  /** Below a link to the root the walk goes as from the root itself. */
  lemma {:induction false} WalkBlind(fs: Fs, path: string, followLast: bool, pos: nat, s: seq<string>)
    requires fs.Valid() && SlashBlind(fs) && AllNames(s)
    ensures Undouble(Walk(fs, path, followLast, pos, Place([SEP], s)))
      == Undouble(Walk(fs, path, followLast, pos, Place("", s)))
    decreases |path| - pos
  {
    var start := SkipSlashes(path, pos + 1);
    var end := FindSlash(path, start);
    if pos + 1 >= |path| || start == end {
      FinishUndouble(fs, s);
    } else {
      NameAt(path, start);
      if path[start..end] == "." {
        WalkBlind(fs, path, followLast, end, s);
      } else if path[start..end] == ".." {
        if s != [] { WalkBlind(fs, path, followLast, end, s[..|s| - 1]); }
      } else {
        LookBlind(fs, path, followLast, end, s, path[start..end]);
        WalkBlind(fs, path, followLast, end, s + [path[start..end]]);
      }
    }
  }

  // ---- Trails ----

  /** A stretch of a path up to a link that is followed: a part through directories, the name of the
      link, and where it leads. */
  datatype Hop = Hop(part: string, name: string, to: seq<string>)

  function Text(hops: seq<Hop>): string {
    if hops == [] then "" else hops[0].part + [SEP] + hops[0].name + Text(hops[1..])
  }

  /** Component c of the stack u is a link that resolve follows to the stack to. */
  predicate LinksTo(fs: Fs, u: seq<string>, c: string, to: seq<string>) {
    && !IsPrefix(fs.mnt, u) && IsName(c) && fs.lstat(Join(u + [c])).Link? && fs.realpath(Join(u + [c])) == Real(to)
    && !(IsPrefix(fs.mnt, to) && to != fs.mnt)
  }

  /** From the stack s0 the stretches lead to the stack s. */
  predicate Trail(fs: Fs, s0: seq<string>, hops: seq<Hop>, s: seq<string>)
    decreases |hops|
  {
    if hops == [] then s == s0
    else
      && Begins(hops[0].part) && DirsOnly(fs, s0, Components(hops[0].part))
      && LinksTo(fs, Normalise(s0, Components(hops[0].part)), hops[0].name, hops[0].to)
      && Trail(fs, hops[0].to, hops[1..], s)
  }

  predicate NoRoot(hops: seq<Hop>) { forall i :: 0 <= i < |hops| ==> hops[i].to != [] }

  /** Equal, or, behind a link to the root, equal but for a doubled slash. */
  predicate Same(exact: bool, a: Result, b: Result) { Undouble(a) == Undouble(b) && (exact ==> a == b) }

  lemma {:induction false} HopLook(fs: Fs, path: string, followLast: bool, end: nat, u: seq<string>, c: string,
                                   to: seq<string>)
    requires LinksTo(fs, u, c, to) && (followLast || end != |path|)
    ensures Look(fs, path, followLast, end, Place("", u), c) == Go(RealPlace(to))
  {
    assert Place("", u).Down(c).Print() == Join(u + [c]);
  }

  lemma CutAtName(path: string, pos: nat, a: string, b: string, more: string, mid: nat) returns (x: string)
    requires pos <= |path| && path[pos..] == a + [SEP] + b + more && mid == pos + |a|
    ensures mid <= |path| && path[pos..mid] == a && path == x + ([SEP] + b + more) && |x| == mid
    ensures |path| - |more| == mid + 1 + |b| && Begins(path[mid..]) && (Begins(a) ==> Begins(path[pos..]))
  {
    x := path[..mid];
    assert path[pos..mid] == path[pos..][..|a|];
    assert path[mid..] == path[pos..][|a|..] == [SEP] + b + more;
  }

  lemma {:induction false} WalkLink(fs: Fs, path: string, followLast: bool, x: string, u: seq<string>, c: string,
                                    to: seq<string>, more: string, next: nat)
    requires path == x + ([SEP] + c + more) && Begins(more) && LinksTo(fs, u, c, to) && (followLast || more != "")
    requires next == |x| + 1 + |c|
    ensures Walk(fs, path, followLast, |x|, Place("", u)) == Walk(fs, path, followLast, next, RealPlace(to))
  {
    HopLook(fs, path, followLast, next, u, c, to);
    WalkName(fs, path, followLast, x, c, more, next, Place("", u), RealPlace(to));
  }

  lemma {:induction false} WalkPart(fs: Fs, path: string, followLast: bool, pos: nat, upto: nat, s: seq<string>,
                                    part: string)
    requires pos <= upto <= |path| && Begins(path[pos..]) && Begins(path[upto..])
    requires part == path[pos..upto] && DirsOnly(fs, s, Components(part))
    ensures Walk(fs, path, followLast, pos, Place("", s))
         == Walk(fs, path, followLast, upto, Place("", Normalise(s, Components(part))))
  {
    WalkDirs(fs, path, followLast, pos, upto, s);
  }

  /** One stretch. */
  lemma {:induction false} WalkStretch(fs: Fs, path: string, followLast: bool, pos: nat, h: Hop, s0: seq<string>,
                                       more: string, next: nat)
    requires pos <= |path| && path[pos..] == h.part + [SEP] + h.name + more && Begins(more) && Begins(h.part)
    requires DirsOnly(fs, s0, Components(h.part)) && (followLast || more != "")
    requires LinksTo(fs, Normalise(s0, Components(h.part)), h.name, h.to) && next == |path| - |more|
    ensures Walk(fs, path, followLast, pos, Place("", s0)) == Walk(fs, path, followLast, next, RealPlace(h.to))
  {
    var x := CutAtName(path, pos, h.part, h.name, more, pos + |h.part|);
    WalkPart(fs, path, followLast, pos, |x|, s0, h.part);
    WalkLink(fs, path, followLast, x, Normalise(s0, Components(h.part)), h.name, h.to, more, next);
  }

  lemma {:induction false} TextCons(hops: seq<Hop>, rest: string)
    requires hops != []
    ensures Text(hops) + rest == hops[0].part + [SEP] + hops[0].name + (Text(hops[1..]) + rest)
  {
  }

  lemma SuffixAt(path: string, pos: nat, front: string, more: string)
    requires pos <= |path| && path[pos..] == front + more
    ensures pos <= |path| - |more| && path[|path| - |more|..] == more
  {
    assert path[|path| - |more|..] == path[pos..][|front|..];
  }

  lemma {:induction false} TextBegins(hops: seq<Hop>, rest: string, fs: Fs, s0: seq<string>, s: seq<string>)
    requires Trail(fs, s0, hops, s) && Begins(rest)
    ensures Begins(Text(hops) + rest) && (hops != [] ==> Text(hops) + rest != "")
  {
    if hops == [] { assert Text(hops) + rest == rest; }
  }

  /** The walk along a trail. */
  lemma {:induction false} WalkTrail(fs: Fs, path: string, followLast: bool, pos: nat, hops: seq<Hop>, s0: seq<string>,
                                     s: seq<string>, rest: string, stop: nat)
    requires fs.Valid() && pos <= |path| && path[pos..] == Text(hops) + rest && Begins(rest) && stop == |path| - |rest|
    requires Trail(fs, s0, hops, s) && (hops != [] ==> followLast || rest != "") && (NoRoot(hops) || SlashBlind(fs))
    ensures Same(NoRoot(hops), Walk(fs, path, followLast, pos, Place("", s0)),
                 Walk(fs, path, followLast, stop, Place("", s)))
    decreases |hops|
  {
    if hops == [] {
      assert Text(hops) + rest == rest;
    } else {
      var h, tail := hops[0], hops[1..];
      var more := Text(tail) + rest;
      var next := |path| - |more|;
      TextCons(hops, rest);
      SuffixAt(path, pos, h.part + [SEP] + h.name, more);
      TextBegins(tail, rest, fs, h.to, s);
      WalkStretch(fs, path, followLast, pos, h, s0, more, next);
      NoRootTail(hops);
      WalkTrail(fs, path, followLast, next, tail, h.to, s, rest, stop);
      if h.to == [] { WalkBlind(fs, path, followLast, next, []); }
    }
  }

  lemma NoRootTail(hops: seq<Hop>)
    requires hops != []
    ensures NoRoot(hops) <==> hops[0].to != [] && NoRoot(hops[1..])
  {
    assert forall i :: 1 <= i < |hops| ==> hops[i] == hops[1..][i - 1];
  }

  // ---- The end of the path ----

  /** The trail of a path: stretches that end in followed links, and the rest. */
  predicate Follows(fs: Fs, path: string, followLast: bool, hops: seq<Hop>, s: seq<string>, rest: string) {
    && path == Text(hops) + rest && Begins(rest) && Trail(fs, [], hops, s)
    && (hops != [] ==> followLast || rest != "")
  }

  lemma {:induction false} TrailNames(fs: Fs, s0: seq<string>, hops: seq<Hop>, s: seq<string>)
    requires fs.Valid() && AllNames(s0) && Trail(fs, s0, hops, s)
    ensures AllNames(s)
    decreases |hops|
  {
    if hops != [] {
      var u := Normalise(s0, Components(hops[0].part));
      assert fs.realpath(Join(u + [hops[0].name])).Real?;
      TrailNames(fs, hops[0].to, hops[1..], s);
    }
  }

  lemma {:induction false} WholeText(path: string, hops: seq<Hop>, rest: string)
    requires path == Text(hops) + rest
    ensures path[0..] == Text(hops) + rest && |rest| <= |path| && path[|path| - |rest|..] == rest
  {
  }

  lemma {:induction false} FollowsWalk(fs: Fs, path: string, followLast: bool, hops: seq<Hop>, s: seq<string>,
                                       rest: string, stop: nat)
    requires fs.Valid() && !Excluded(path) && Follows(fs, path, followLast, hops, s, rest)
      && (NoRoot(hops) || SlashBlind(fs))
    requires stop == |path| - |rest|
    ensures Same(NoRoot(hops), Resolved(fs, path, followLast), Walk(fs, path, followLast, stop, Place("", s)))
    ensures AllNames(s) && stop <= |path| && path[stop..] == rest
  {
    WholeText(path, hops, rest);
    WalkTrail(fs, path, followLast, 0, hops, [], s, rest, stop);
    TrailNames(fs, [], hops, s);
  }

  lemma {:induction false} NamesOf(s: seq<string>, part: string)
    requires AllNames(s)
    ensures AllNames(Normalise(s, Components(part)))
  {
    WordsAreWords("", part);
    NormaliseKeepsNames(s, Components(part));
  }

  lemma {:induction false} WalkToEnd(fs: Fs, path: string, followLast: bool, pos: nat, s: seq<string>, rest: string)
    requires fs.Valid() && AllNames(s) && pos <= |path| && path[pos..] == rest && Begins(rest)
      && DirsOnly(fs, s, Components(rest))
    ensures Walk(fs, path, followLast, pos, Place("", s)) == Answer(fs, Normalise(s, Components(rest)))
  {
    assert path[pos..|path|] == rest;
    WalkPart(fs, path, followLast, pos, |path|, s, rest);
    NamesOf(s, rest);
    FinishAnswers(fs, Normalise(s, Components(rest)));
  }

  /** When the rest meets only directories outside the mount directory, the answer is the normal form. */
  lemma {:induction false} AnswersPlain(fs: Fs, path: string, followLast: bool, hops: seq<Hop>, s: seq<string>,
                                        rest: string)
    requires fs.Valid() && !Excluded(path) && Follows(fs, path, followLast, hops, s, rest)
      && (NoRoot(hops) || SlashBlind(fs))
    requires DirsOnly(fs, s, Components(rest))
    ensures Same(NoRoot(hops), Resolved(fs, path, followLast), Answer(fs, Normalise(s, Components(rest))))
  {
    var stop := |path| - |rest|;
    FollowsWalk(fs, path, followLast, hops, s, rest, stop);
    WalkToEnd(fs, path, followLast, stop, s, rest);
  }

  /** Outside the mount directory: the name n, with r behind it, is missing, is a link that leads nowhere,
      or is no directory although something follows. */
  predicate GivesUp(fs: Fs, followLast: bool, n: string, r: string) {
    || fs.lstat(n).Missing?
    || (fs.lstat(n).Other? && r != "")
    || (fs.lstat(n).Link? && (followLast || r != "") && fs.realpath(n).NoPath?)
  }

  /** The last name, which is a file or a link that is not followed. */
  predicate StandsLast(fs: Fs, followLast: bool, n: string, r: string) {
    r == "" && (fs.lstat(n).Other? || (fs.lstat(n).Link? && !followLast))
  }

  /** A followed link into the mount directory, below its root. */
  predicate Throws(fs: Fs, followLast: bool, n: string, r: string) {
    && fs.lstat(n).Link? && (followLast || r != "")
    && fs.realpath(n).Real? && IsPrefix(fs.mnt, fs.realpath(n).stack) && fs.realpath(n).stack != fs.mnt
  }

  /** The answer at a name that ends the trail. */
  function AtName(fs: Fs, followLast: bool, u: seq<string>, c: string, r: string): Result {
    if GivesUp(fs, followLast, Join(u + [c]), r) then External(Join(u + [c]) + r)
    else if Throws(fs, followLast, Join(u + [c]), r) then OutOfRange
    else Answer(fs, u + [c])
  }

  predicate EndsAt(fs: Fs, followLast: bool, u: seq<string>, c: string, r: string) {
    && !IsPrefix(fs.mnt, u) && IsName(c) && Begins(r)
    && (|| GivesUp(fs, followLast, Join(u + [c]), r) || StandsLast(fs, followLast, Join(u + [c]), r)
        || Throws(fs, followLast, Join(u + [c]), r))
  }

  lemma {:induction false} LookAtName(fs: Fs, path: string, followLast: bool, end: nat, u: seq<string>, c: string,
                                      r: string)
    requires end <= |path| && r == path[end..] && EndsAt(fs, followLast, u, c, r)
    ensures var v := Look(fs, path, followLast, end, Place("", u), c);
      if StandsLast(fs, followLast, Join(u + [c]), r) then v == Go(Place("", u + [c]))
      else v == Stop(AtName(fs, followLast, u, c, r))
  {
    assert Place("", u).Down(c).Print() == Join(u + [c]);
  }

  lemma {:induction false} WalkAtName(fs: Fs, path: string, followLast: bool, x: string, u: seq<string>, c: string,
                                      r: string, end: nat)
    requires fs.Valid() && AllNames(u) && path == x + ([SEP] + c + r) && EndsAt(fs, followLast, u, c, r)
    requires end == |x| + 1 + |c|
    ensures Walk(fs, path, followLast, |x|, Place("", u)) == AtName(fs, followLast, u, c, r)
  {
    FoundAt(path, x, c, r);
    assert path[end..] == r;
    LookAtName(fs, path, followLast, end, u, c, r);
    WalkTurn(fs, path, followLast, |x|, Place("", u), |x| + 1, end, Look(fs, path, followLast, end, Place("", u), c));
    FinishAnswers(fs, u + [c]);
  }

  lemma {:induction false} AtNameOf(fs: Fs, path: string, followLast: bool, hops: seq<Hop>, s: seq<string>,
                                    rest: string, x: string, c: string, r: string)
    requires fs.Valid() && !Excluded(path) && Follows(fs, path, followLast, hops, s, rest)
      && (NoRoot(hops) || SlashBlind(fs))
    requires rest == x + [SEP] + c + r && Begins(x) && DirsOnly(fs, s, Components(x))
    requires EndsAt(fs, followLast, Normalise(s, Components(x)), c, r)
    ensures Same(NoRoot(hops), Resolved(fs, path, followLast),
                 AtName(fs, followLast, Normalise(s, Components(x)), c, r))
  {
    var pos := |path| - |rest|;
    FollowsWalk(fs, path, followLast, hops, s, rest, pos);
    var front := CutAtName(path, pos, x, c, r, pos + |x|);
    WalkPart(fs, path, followLast, pos, |front|, s, x);
    NamesOf(s, x);
    WalkAtName(fs, path, followLast, front, Normalise(s, Components(x)), c, r, |front| + 1 + |c|);
  }

  /** When a name outside the mount directory is missing, cannot be resolved, or is no directory although
      more follows, the answer is external: the normal form of the part walked, up to and including
      that name, and the untouched rest of the path. */
  lemma {:induction false} AnswersGivenUp(fs: Fs, path: string, followLast: bool, hops: seq<Hop>, s: seq<string>,
                                          rest: string, x: string, c: string, r: string)
    requires fs.Valid() && !Excluded(path) && Follows(fs, path, followLast, hops, s, rest)
      && (NoRoot(hops) || SlashBlind(fs))
    requires rest == x + [SEP] + c + r && Begins(x) && Begins(r) && IsName(c) && DirsOnly(fs, s, Components(x))
    requires !IsPrefix(fs.mnt, Normalise(s, Components(x)))
    requires GivesUp(fs, followLast, Join(Normalise(s, Components(x)) + [c]), r)
    ensures Same(NoRoot(hops), Resolved(fs, path, followLast), External(Join(Normalise(s, Components(x)) + [c]) + r))
    ensures Components(Join(Normalise(s, Components(x)) + [c]) + r) == Normalise(s, Components(x)) + [c] + Components(r)
  {
    AtNameOf(fs, path, followLast, hops, s, rest, x, c, r);
    TrailNames(fs, [], hops, s);
    NamesOf(s, x);
    ScanWith(Normalise(s, Components(x)) + [c], r);
  }

  lemma {:induction false} ScanWith(s: seq<string>, r: string)
    requires AllNames(s) && Begins(r)
    ensures Components(Join(s) + r) == s + Components(r)
  {
    ScanPrinted(s);
    if r == "" {
      assert Join(s) + r == Join(s) && s + [] == s;
    } else {
      assert Join(s) + r == Join(s) + [SEP] + r[1..] && r == "" + [SEP] + r[1..];
      ComponentsConcat(Join(s), r[1..]);
      ComponentsConcat("", r[1..]);
      assert Components("") + Components(r[1..]) == Components(r[1..]);
    }
  }

  /** A file, or a link that is not followed, as the last name is answered by its normal form. */
  lemma {:induction false} AnswersLast(fs: Fs, path: string, followLast: bool, hops: seq<Hop>, s: seq<string>,
                                       rest: string, x: string, c: string)
    requires fs.Valid() && !Excluded(path) && Follows(fs, path, followLast, hops, s, rest)
      && (NoRoot(hops) || SlashBlind(fs))
    requires rest == x + [SEP] + c + "" && Begins(x) && IsName(c) && DirsOnly(fs, s, Components(x))
    requires !IsPrefix(fs.mnt, Normalise(s, Components(x)))
    requires StandsLast(fs, followLast, Join(Normalise(s, Components(x)) + [c]), "")
    ensures Same(NoRoot(hops), Resolved(fs, path, followLast), Answer(fs, Normalise(s, Components(x)) + [c]))
  {
    AtNameOf(fs, path, followLast, hops, s, rest, x, c, "");
  }

  /** A followed link to a place below the mount directory throws. */
  lemma {:induction false} AnswersThrow(fs: Fs, path: string, followLast: bool, hops: seq<Hop>, s: seq<string>,
                                        rest: string, x: string, c: string, r: string)
    requires fs.Valid() && !Excluded(path) && Follows(fs, path, followLast, hops, s, rest)
      && (NoRoot(hops) || SlashBlind(fs))
    requires rest == x + [SEP] + c + r && Begins(x) && Begins(r) && IsName(c) && DirsOnly(fs, s, Components(x))
    requires !IsPrefix(fs.mnt, Normalise(s, Components(x)))
    requires Throws(fs, followLast, Join(Normalise(s, Components(x)) + [c]), r)
    ensures Resolved(fs, path, followLast) == OutOfRange
  {
    AtNameOf(fs, path, followLast, hops, s, rest, x, c, r);
  }

  // ---- Every path has a trail ----

  predicate Settled(fs: Fs, followLast: bool, s: seq<string>, rest: string, x: string, c: string, r: string) {
    || DirsOnly(fs, s, Components(rest))
    || (&& rest == x + [SEP] + c + r && Begins(x) && DirsOnly(fs, s, Components(x))
        && EndsAt(fs, followLast, Normalise(s, Components(x)), c, r))
  }

  lemma {:induction false} PartConcat(a: string, b: string)
    requires Begins(b)
    ensures Components(a + b) == Components(a) + Components(b)
  {
    if b == "" {
      assert a + b == a && Components(a) + [] == Components(a);
    } else {
      assert a + b == a + [SEP] + b[1..] && b == "" + [SEP] + b[1..];
      ComponentsConcat(a, b[1..]);
      ComponentsConcat("", b[1..]);
      assert Components("") + Components(b[1..]) == Components(b[1..]);
    }
  }

  /** Entering c from s meets no file system object, or a directory. */
  predicate DirEntry(fs: Fs, s: seq<string>, c: string) {
    c == "." || c == ".." || IsPrefix(fs.mnt, s) || fs.lstat(Join(s + [c])).Directory?
  }

  lemma Regroup(seg: string, a: string, b: string, more: string)
    ensures (seg + a) + [SEP] + b + more == seg + (a + [SEP] + b + more)
  {
  }

  /** A directory in front of a part. */
  lemma {:induction false} PrependPart(fs: Fs, s: seq<string>, c: string, seg: string, y: string)
    requires c != "" && Components(seg) == [c] && DirEntry(fs, s, c) && Begins(y)
    ensures DirsOnly(fs, Enter(s, c), Components(y)) ==> DirsOnly(fs, s, Components(seg + y))
    ensures Normalise(s, Components(seg + y)) == Normalise(Enter(s, c), Components(y))
  {
    PartConcat(seg, y);
    var comps := [c] + Components(y);
    assert comps[0] == c && comps[1..] == Components(y);
  }

  lemma {:induction false} PrependText(seg: string, hops: seq<Hop>, longer: seq<Hop>, rest: string)
    requires hops != [] && longer == [hops[0].(part := seg + hops[0].part)] + hops[1..]
    ensures Text(longer) + rest == seg + (Text(hops) + rest)
  {
    assert longer[1..] == hops[1..];
    TextCons(longer, rest);
    TextCons(hops, rest);
    Regroup(seg, hops[0].part, hops[0].name, Text(hops[1..]) + rest);
  }

  lemma {:induction false} PrependTrail(fs: Fs, s0: seq<string>, c: string, seg: string, hops: seq<Hop>, s: seq<string>)
    requires c != "" && Components(seg) == [c] && Begins(seg) && seg != "" && DirEntry(fs, s0, c)
    requires hops != [] && Trail(fs, Enter(s0, c), hops, s)
    ensures Trail(fs, s0, [hops[0].(part := seg + hops[0].part)] + hops[1..], s)
  {
    var h := hops[0].(part := seg + hops[0].part);
    assert ([h] + hops[1..])[1..] == hops[1..];
    PrependPart(fs, s0, c, seg, hops[0].part);
  }

  lemma {:induction false} PrependRest(fs: Fs, followLast: bool, s: seq<string>, c: string, seg: string, rest: string,
                                       x: string, d: string, r: string)
    requires c != "" && Components(seg) == [c] && Begins(seg) && seg != "" && DirEntry(fs, s, c) && Begins(rest)
    requires Settled(fs, followLast, Enter(s, c), rest, x, d, r)
    ensures Settled(fs, followLast, s, seg + rest, seg + x, d, r)
  {
    PrependPart(fs, s, c, seg, rest);
    if !DirsOnly(fs, Enter(s, c), Components(rest)) {
      PrependPart(fs, s, c, seg, x);
      Regroup(seg, x, d, r);
    }
  }

  lemma {:induction false} SkippedSlash(path: string, i: nat)
    requires 0 < i <= |path| && path[i - 1] == SEP
    ensures i <= SkipSlashes(path, i) <= |path| && path[SkipSlashes(path, i) - 1] == SEP
    decreases |path| - i
  {
    if i < |path| && path[i] == SEP { SkippedSlash(path, i + 1); }
  }

  /** The first component of a path, behind separators only, or none. */
  lemma {:induction false} FirstOf(p: string) returns (part: string, w: string, after: string)
    requires Begins(p)
    ensures if w == "" then Components(p) == []
            else && p == part + [SEP] + w + after && Begins(part) && Begins(after) && Components(part) == []
                 && Components(part + [SEP] + w) == [w] && (w == "." || w == ".." || IsName(w))
  {
    part, w, after := "", "", "";
    if |p| <= 1 {
      OneSlash(p, 0);
      assert p[0..] == p;
    } else {
      var start := SkipSlashes(p, 1);
      var end := FindSlash(p, start);
      ComponentsAt(p, 0);
      assert p[0..] == p;
      if start == end {
        assert p[start..end] == "" && p[end..] == "";
      } else {
        part, w, after := CutWord(p, start, end);
        NameAt(p, start);
      }
    }
  }

  lemma SplitThree(p: string, k: nat, end: nat) returns (part: string, w: string, after: string)
    requires k < end <= |p| && p[k] == SEP
    ensures part == p[..k] && w == p[k + 1..end] && after == p[end..] && p == part + [SEP] + w + after
  {
    part, w, after := p[..k], p[k + 1..end], p[end..];
  }

  lemma {:induction false} CutWord(p: string, start: nat, end: nat) returns (part: string, w: string, after: string)
    requires |p| > 1 && p[0] == SEP && start == SkipSlashes(p, 1) && end == FindSlash(p, start)
      && 0 < start < end <= |p|
    ensures w == p[start..end] && p == part + [SEP] + w + after && Begins(part) && Begins(after)
    ensures Components(part) == [] && Components(part + [SEP] + w) == [w]
  {
    SkippedSlash(p, 1);
    part, w, after := SplitThree(p, start - 1, end);
    FindSlashClear(p, start);
    SlashesOnly(p, start, end);
    OneWord(part, w);
  }

  lemma OneWord(part: string, w: string)
    requires NoSlash(w) && w != "" && Components(part) == []
    ensures Components(part + [SEP] + w) == [w]
  {
    WordsOfWord("", w);
    assert "" + w == w;
    ComponentsConcat(part, w);
  }

  lemma {:induction false} SlashesOnly(p: string, start: nat, end: nat)
    requires |p| > 1 && p[0] == SEP && start == SkipSlashes(p, 1) && end == FindSlash(p, start)
    requires 0 < start < end <= |p| && p[start - 1] == SEP
    ensures Components(p[..start - 1]) == []
  {
    assert p[0..start - 1] == p[..start - 1];
    if start > 1 { FirstOfPart(p, 0, start - 1, start, end); }
  }

  /** A directory in front of a trail. */
  lemma {:induction false} StepDir(fs: Fs, p: string, followLast: bool, s0: seq<string>, seg: string, w: string,
                                   after: string,
                                   hops': seq<Hop>, s': seq<string>, rest': string, x': string, c: string, r: string)
    returns (hops: seq<Hop>, s: seq<string>, rest: string, x: string)
    requires p == seg + after && Begins(seg) && seg != "" && Components(seg) == [w] && w != "" && DirEntry(fs, s0, w)
    requires after == Text(hops') + rest' && Begins(rest') && Trail(fs, Enter(s0, w), hops', s')
    requires (hops' != [] ==> followLast || rest' != "") && Settled(fs, followLast, s', rest', x', c, r)
    ensures p == Text(hops) + rest && Begins(rest) && Trail(fs, s0, hops, s)
    ensures (hops != [] ==> followLast || rest != "") && Settled(fs, followLast, s, rest, x, c, r)
  {
    if hops' == [] {
      PrependRest(fs, followLast, s0, w, seg, rest', x', c, r);
      hops, s, rest, x := [], s0, seg + rest', seg + x';
      assert Text([]) + rest' == rest' && Text([]) + rest == rest;
    } else {
      hops, s, rest, x := [hops'[0].(part := seg + hops'[0].part)] + hops'[1..], s', rest', x';
      PrependText(seg, hops', hops, rest);
      PrependTrail(fs, s0, w, seg, hops', s);
    }
  }

  /** A followed link in front of a trail. */
  lemma {:induction false} StepLink(fs: Fs, p: string, followLast: bool, s0: seq<string>, part: string, w: string,
                                    after: string, to: seq<string>, tail: seq<Hop>, s: seq<string>,
                                    rest: string) returns (hops: seq<Hop>)
    requires p == part + [SEP] + w + after && Begins(part) && Components(part) == [] && LinksTo(fs, s0, w, to)
    requires after == Text(tail) + rest && Trail(fs, to, tail, s)
    ensures hops != [] && p == Text(hops) + rest && Trail(fs, s0, hops, s)
  {
    hops := [Hop(part, w, to)] + tail;
    assert hops[1..] == tail;
    TextCons(hops, rest);
  }

  /** A name outside the mount directory: it ends the trail, is a directory, or is a link to follow. */
  lemma {:induction false} NameCases(fs: Fs, followLast: bool, s: seq<string>, w: string, after: string)
    requires Begins(after) && (w == "." || w == ".." || IsName(w)) && !DirEntry(fs, s, w)
      && !EndsAt(fs, followLast, s, w, after)
    ensures fs.realpath(Join(s + [w])).Real? && LinksTo(fs, s, w, fs.realpath(Join(s + [w])).stack)
    ensures followLast || after != ""
  {
  }

  /** A trail of a path from the stack s0, and how it ends. */
  lemma {:induction false} FindTrail(fs: Fs, p: string, followLast: bool, s0: seq<string>)
    returns (hops: seq<Hop>, s: seq<string>, rest: string, x: string, c: string, r: string)
    requires Begins(p)
    ensures p == Text(hops) + rest && Begins(rest) && Trail(fs, s0, hops, s)
    ensures (hops != [] ==> followLast || rest != "") && Settled(fs, followLast, s, rest, x, c, r)
    decreases |p|
  {
    var part, w, after := FirstOf(p);
    hops, s, rest, x, c, r := [], s0, p, part, w, after;
    assert Text([]) + rest == rest;
    if w != "" {
      if DirEntry(fs, s0, w) {
        hops, s, rest, x, c, r := FindTrail(fs, after, followLast, Enter(s0, w));
        hops, s, rest, x := StepDir(fs, p, followLast, s0, part + [SEP] + w, w, after, hops, s, rest, x, c, r);
      } else if !EndsAt(fs, followLast, s0, w, after) {
        NameCases(fs, followLast, s0, w, after);
        var to := fs.realpath(Join(s0 + [w])).stack;
        hops, s, rest, x, c, r := FindTrail(fs, after, followLast, to);
        hops := StepLink(fs, p, followLast, s0, part, w, after, to, hops, s, rest);
      }
    }
  }

  /** Every absolute path has a trail, at whose end one of the four lemmas above gives the answer. */
  lemma {:induction false} EveryPath(fs: Fs, path: string, followLast: bool)
    returns (hops: seq<Hop>, s: seq<string>, rest: string, x: string, c: string, r: string)
    requires path != "" && path[0] == SEP
    ensures Follows(fs, path, followLast, hops, s, rest) && Settled(fs, followLast, s, rest, x, c, r)
  {
    hops, s, rest, x, c, r := FindTrail(fs, path, followLast, []);
  }

  // ---- A followed link is the path it leads to ----

  lemma {:induction false} SkipShift(path: string, x: string, rest: string, i: nat, k: nat)
    requires path == x + rest && i <= |rest| && k == |x| + i
    ensures SkipSlashes(path, k) == |x| + SkipSlashes(rest, i)
    decreases |rest| - i
  {
    if i < |rest| && rest[i] == SEP { SkipShift(path, x, rest, i + 1, k + 1); }
  }

  lemma {:induction false} FindShift(path: string, x: string, rest: string, i: nat, k: nat)
    requires path == x + rest && i <= |rest| && k == |x| + i
    ensures FindSlash(path, k) == |x| + FindSlash(rest, i)
    decreases |rest| - i
  {
    if i < |rest| && rest[i] != SEP { FindShift(path, x, rest, i + 1, k + 1); }
  }

  lemma LookShift(fs: Fs, path: string, x: string, rest: string, followLast: bool, end: nat, at: Place, c: string)
    requires path == x + rest && end <= |rest|
    ensures Look(fs, path, followLast, |x| + end, at, c) == Look(fs, rest, followLast, end, at, c)
  {
    assert path[|x| + end..] == rest[end..];
  }

  lemma {:induction false} ShiftTurn(fs: Fs, path: string, rest: string, followLast: bool, pos: nat, end: nat,
                                     at: nat, end': nat, place: Place, start: nat, start': nat, v: Verdict)
    requires pos + 1 < |rest| && start == SkipSlashes(rest, pos + 1) && end == FindSlash(rest, start) && start != end
    requires at + 1 < |path| && start' == SkipSlashes(path, at + 1) && end' == FindSlash(path, start') && start' != end'
    requires v == Turn(fs, rest, followLast, end, place, rest[start..end])
    requires v == Turn(fs, path, followLast, end', place, path[start'..end'])
    requires v.Go? ==> Walk(fs, path, followLast, end', v.at) == Walk(fs, rest, followLast, end, v.at)
    ensures Walk(fs, path, followLast, at, place) == Walk(fs, rest, followLast, pos, place)
  {
    WalkTurn(fs, rest, followLast, pos, place, start, end, v);
    WalkTurn(fs, path, followLast, at, place, start', end', v);
  }

  lemma {:induction false} TurnShift(fs: Fs, path: string, x: string, rest: string, followLast: bool, start: nat,
                                     end: nat, start': nat, end': nat, place: Place)
    requires path == x + rest && start <= end <= |rest| && start' == |x| + start && end' == |x| + end
    ensures Turn(fs, path, followLast, end', place, path[start'..end'])
      == Turn(fs, rest, followLast, end, place, rest[start..end])
  {
    assert path[start'..end'] == rest[start..end];
    LookShift(fs, path, x, rest, followLast, end, place, rest[start..end]);
  }

  lemma {:induction false} ShiftEnds(fs: Fs, path: string, rest: string, followLast: bool, pos: nat, at: nat,
                                     place: Place)
    requires pos + 1 >= |rest| || SkipSlashes(rest, pos + 1) == FindSlash(rest, SkipSlashes(rest, pos + 1))
    requires at + 1 >= |path| || SkipSlashes(path, at + 1) == FindSlash(path, SkipSlashes(path, at + 1))
    ensures Walk(fs, path, followLast, at, place) == Walk(fs, rest, followLast, pos, place)
  {
  }

  lemma {:induction false} WordShift(path: string, x: string, rest: string, pos: nat, at: nat)
    returns (start: nat, end: nat, start': nat, end': nat)
    requires path == x + rest && pos + 1 < |rest| && at == |x| + pos
    ensures start == SkipSlashes(rest, pos + 1) && end == FindSlash(rest, start) && pos < start <= end <= |rest|
    ensures start' == SkipSlashes(path, at + 1) && end' == FindSlash(path, start') && at + 1 < |path|
    ensures start' == |x| + start && end' == |x| + end
  {
    start := SkipSlashes(rest, pos + 1);
    end := FindSlash(rest, start);
    start', end' := |x| + start, |x| + end;
    SkipShift(path, x, rest, pos + 1, at + 1);
    FindShift(path, x, rest, start, start');
  }

  /** The walk depends only on what lies before it. */
  lemma {:induction false} WalkShift(fs: Fs, path: string, x: string, rest: string, followLast: bool, pos: nat,
                                     at: nat, place: Place)
    requires path == x + rest && pos <= |rest| && at == |x| + pos
    ensures Walk(fs, path, followLast, at, place) == Walk(fs, rest, followLast, pos, place)
    decreases |rest| - pos
  {
    if pos + 1 >= |rest| {
      ShiftEnds(fs, path, rest, followLast, pos, at, place);
    } else {
      var start, end, start', end' := WordShift(path, x, rest, pos, at);
      if start == end {
        ShiftEnds(fs, path, rest, followLast, pos, at, place);
      } else {
        var v := Turn(fs, rest, followLast, end, place, rest[start..end]);
        TurnShift(fs, path, x, rest, followLast, start, end, start', end', place);
        if v.Go? { WalkShift(fs, path, x, rest, followLast, end, end', v.at); }
        ShiftTurn(fs, path, rest, followLast, pos, end, at, end', place, start, start', v);
      }
    }
  }

  /** A printed directory in front of a path. */
  lemma {:induction false} WalkDirect(fs: Fs, direct: string, followLast: bool, s: seq<string>, d: string, rest: string)
    requires fs.Valid() && AllNames(s) && s != [] && DirsOnly(fs, [], s) && d == Join(s) && direct == d + rest
      && Begins(rest)
    ensures Walk(fs, direct, followLast, 0, Place("", [])) == Walk(fs, rest, followLast, 0, Place("", s))
  {
    ScanPrinted(s);
    NormaliseNames([], s);
    JoinStarts(s);
    assert [] + s == s && direct[0..|d|] == d && direct[|d|..] == rest && direct[0..] == direct;
    WalkPart(fs, direct, followLast, 0, |d|, [], d);
    WalkShift(fs, direct, d, rest, followLast, 0, |d|, Place("", s));
  }

  /** When a path leads through links to the directory s, its answer is the one for the path made of
      printed s and the rest. */
  lemma {:induction false} LinkIsPath(fs: Fs, path: string, followLast: bool, hops: seq<Hop>, s: seq<string>,
                                      rest: string, direct: string)
    requires fs.Valid() && Follows(fs, path, followLast, hops, s, rest) && NoRoot(hops)
    requires direct == Join(s) + rest && s != [] && DirsOnly(fs, [], s) && !Excluded(path) && !Excluded(direct)
    ensures Resolved(fs, path, followLast) == Resolved(fs, direct, followLast)
  {
    var stop := |path| - |rest|;
    FollowsWalk(fs, path, followLast, hops, s, rest, stop);
    WalkShift(fs, path, Text(hops), rest, followLast, 0, stop, Place("", s));
    WalkDirect(fs, direct, followLast, s, Join(s), rest);
  }
}
