/** Component stacks, the reference for path resolution (section 4.13 of POSIX.1-2017 Base
    Definitions), and the string functions that scan and print paths. */
module PathNames {
  import opened Arith

  const SEP: char := '/'

  predicate NoSlash(c: string) { forall i :: 0 <= i < |c| ==> c[i] != SEP }

  /** A component that names a directory entry. */
  predicate IsName(c: string) { c != "" && NoSlash(c) && c != "." && c != ".." }

  predicate AllNames(s: seq<string>) { forall i :: 0 <= i < |s| ==> IsName(s[i]) }

  /** A stack printed as an absolute path; the empty stack prints as nothing. */
  function Join(s: seq<string>): string {
    if s == [] then "" else Join(s[..|s| - 1]) + [SEP] + s[|s| - 1]
  }

  lemma {:induction false} JoinSnoc(s: seq<string>, c: string)
    ensures Join(s + [c]) == Join(s) + [SEP] + c
  {
    Snoc(s, c);
  }

  lemma {:induction false} JoinConcat(a: seq<string>, b: seq<string>)
    ensures Join(a + b) == Join(a) + Join(b)
  {
    if b == [] {
      assert a + b == a;
    } else {
      var init, last := b[..|b| - 1], b[|b| - 1];
      JoinConcat(a, init);
      AppendLast(a, b);
      JoinSnoc(a + init, last);
      assert Join(a) + Join(init) + [SEP] + last == Join(a) + (Join(init) + [SEP] + last);
    }
  }

  // ---- Scanning ----

  /** Index of the first character from i on that is no separator. */
  function SkipSlashes(p: string, i: nat): (r: nat)
    ensures i <= r && (i <= |p| ==> r <= |p|)
    decreases |p| - i
  {
    if i < |p| && p[i] == SEP then SkipSlashes(p, i + 1) else i
  }

  /** Index of the first separator from i on, or the length of p. */
  function FindSlash(p: string, i: nat): (r: nat)
    ensures i <= |p| ==> i <= r <= |p|
    decreases |p| - i
  {
    if i >= |p| then |p| else if p[i] == SEP then i else FindSlash(p, i + 1)
  }

  /** Index of the last separator below n, or -1. */
  function LastSlash(p: string, n: nat): int {
    if n == 0 || n > |p| then -1 else if p[n - 1] == SEP then n - 1 else LastSlash(p, n - 1)
  }

  lemma {:induction false} FindSlashStops(p: string, i: nat, e: nat)
    requires i <= e <= |p| && (forall k :: i <= k < e ==> p[k] != SEP) && (e == |p| || p[e] == SEP)
    ensures FindSlash(p, i) == e
    decreases e - i
  {
    if i < e { FindSlashStops(p, i + 1, e); }
  }

  lemma {:induction false} FindSlashClear(p: string, i: nat)
    requires i <= |p|
    ensures var e := FindSlash(p, i);
      (forall k :: i <= k < e ==> p[k] != SEP) && (e < |p| ==> p[e] == SEP)
    decreases |p| - i
  {
    if i < |p| && p[i] != SEP { FindSlashClear(p, i + 1); }
  }

  lemma {:induction false} LastSlashAt(p: string, n: nat, at: nat)
    requires at < n <= |p| && p[at] == SEP && forall k :: at < k < n ==> p[k] != SEP
    ensures LastSlash(p, n) == at
  {
    if n - 1 > at { LastSlashAt(p, n - 1, at); }
  }

  /** The last separator of a printed stack is the one before its top. */
  lemma {:induction false} LastSlashOfJoin(base: string, s: seq<string>, c: string)
    requires NoSlash(c)
    ensures var p := base + Join(s + [c]); LastSlash(p, |p|) == |base + Join(s)|
  {
    JoinSnoc(s, c);
    var p, at := base + Join(s + [c]), |base + Join(s)|;
    assert p == (base + Join(s)) + ([SEP] + c);
    LastSlashAt(p, |p|, at);
  }

  // ---- Components ----

  function Flush(word: string): seq<string> { if word == "" then [] else [word] }

  /** The words of p between separators, the first one continuing the given word. */
  function Words(word: string, p: string): seq<string>
    decreases |p|
  {
    if p == "" then Flush(word)
    else if p[0] == SEP then Flush(word) + Words("", p[1..])
    else Words(word + [p[0]], p[1..])
  }

  /** The components of a path: separators, however many, only separate. */
  function Components(p: string): seq<string> { Words("", p) }

  /** One component on a stack. */
  function Enter(s: seq<string>, c: string): seq<string> {
    if c == "." then s
    else if c == ".." then Pop(s)
    else s + [c]
  }

  function Pop(s: seq<string>): seq<string> { if s == [] then [] else s[..|s| - 1] }

  /** The stack after entering the components in order. */
  function Normalise(s: seq<string>, comps: seq<string>): seq<string>
    decreases |comps|
  {
    if comps == [] then s else Normalise(Enter(s, comps[0]), comps[1..])
  }

  lemma {:induction false} NormaliseConcat(s: seq<string>, a: seq<string>, b: seq<string>)
    ensures Normalise(s, a + b) == Normalise(Normalise(s, a), b)
    decreases |a|
  {
    if a == [] {
      assert a + b == b;
    } else {
      NormaliseConcat(Enter(s, a[0]), a[1..], b);
      assert (a + b)[0] == a[0] && (a + b)[1..] == a[1..] + b;
    }
  }

  /** Names are simply pushed. */
  lemma {:induction false} NormaliseNames(s: seq<string>, names: seq<string>)
    requires AllNames(names)
    ensures Normalise(s, names) == s + names
    decreases |names|
  {
    if names == [] {
      assert s + names == s;
    } else {
      NormaliseNames(s + [names[0]], names[1..]);
      assert s + [names[0]] + names[1..] == s + names;
    }
  }

  lemma {:induction false} WordsAreWords(word: string, p: string)
    requires NoSlash(word)
    ensures forall i :: 0 <= i < |Words(word, p)| ==> Words(word, p)[i] != "" && NoSlash(Words(word, p)[i])
    decreases |p|
  {
    if p != "" { WordsAreWords(if p[0] == SEP then "" else word + [p[0]], p[1..]); }
  }

  lemma {:induction false} NormaliseKeepsNames(s: seq<string>, comps: seq<string>)
    requires AllNames(s) && forall i :: 0 <= i < |comps| ==> comps[i] != "" && NoSlash(comps[i])
    ensures AllNames(Normalise(s, comps))
    decreases |comps|
  {
    if comps != [] { NormaliseKeepsNames(Enter(s, comps[0]), comps[1..]); }
  }

  // ---- Scanning and printing ----

  /** A separator after x ends its last word. */
  lemma {:induction false} WordsConcat(word: string, x: string, y: string)
    ensures Words(word, x + ([SEP] + y)) == Words(word, x) + Words("", y)
    decreases |x|
  {
    var p := x + ([SEP] + y);
    if x == "" {
      assert p[0] == SEP && p[1..] == y;
    } else {
      assert p[0] == x[0] && p[1..] == x[1..] + ([SEP] + y);
      WordsConcat(if x[0] == SEP then "" else word + [x[0]], x[1..], y);
    }
  }

  /** The components of two paths put together are the components of both. */
  lemma ComponentsConcat(x: string, y: string)
    ensures Components(x + [SEP] + y) == Components(x) + Components(y)
  {
    assert x + [SEP] + y == x + ([SEP] + y);
    WordsConcat("", x, y);
  }

  lemma {:induction false} WordsOfWord(word: string, c: string)
    requires NoSlash(c)
    ensures Words(word, c) == Flush(word + c)
    decreases |c|
  {
    if c == "" {
      assert word + c == word;
    } else {
      WordsOfWord(word + [c[0]], c[1..]);
      assert word + [c[0]] + c[1..] == word + c;
    }
  }

  /** Scanning a printed stack gives the stack back. */
  lemma {:induction false} ScanPrinted(s: seq<string>)
    requires AllNames(s)
    ensures Components(Join(s)) == s
  {
    if s != [] {
      var init, last := s[..|s| - 1], s[|s| - 1];
      ScanPrinted(init);
      ComponentsConcat(Join(init), last);
      WordsOfWord("", last);
      assert "" + last == last;
    }
  }

  /** Leading separators do not matter. */
  lemma {:induction false} SkipKeepsWords(p: string, i: nat)
    requires i <= |p|
    ensures Components(p[i..]) == Components(p[SkipSlashes(p, i)..])
    decreases |p| - i
  {
    if i < |p| && p[i] == SEP {
      assert p[i..][1..] == p[i + 1..];
      SkipKeepsWords(p, i + 1);
    }
  }

  /** A word and then nothing or a separator. */
  lemma WordThen(c: string, t: string)
    requires NoSlash(c) && (t == "" || t[0] == SEP)
    ensures Components(c + t) == Flush(c) + Components(t)
  {
    WordsOfWord("", c);
    assert "" + c == c;
    if t == "" {
      assert c + t == c;
    } else {
      WordsConcat("", c, t[1..]);
      assert t == [SEP] + t[1..];
    }
  }

  /** The first word ends at the next separator or at the end. */
  lemma {:induction false} FirstWord(p: string, start: nat)
    requires start <= |p|
    ensures var e := FindSlash(p, start); Components(p[start..]) == Flush(p[start..e]) + Components(p[e..])
  {
    var e := FindSlash(p, start);
    FindSlashClear(p, start);
    assert p[start..] == p[start..e] + p[e..];
    WordThen(p[start..e], p[e..]);
  }
}
