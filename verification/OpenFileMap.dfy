/** src/client/open_file_map.cpp: the descriptor table, with its wrapping index and lazy check flag. */
module OpenFileMap {

  const INT_MAX: int := 0x7fff_ffff

  const FIRST: int := 10000

  /** Where the index goes on after INT_MAX. */
  const RESTART: int := 100000

  /** The fields of the table as a value. */
  datatype Table<F> = Table(files: map<int, F>, fdIdx: int, validationNeeded: bool)

  /** An open file; descriptors made by dup and dup2 refer to the same one. */
  class OpenFile {
    const path: string
    var pos: nat

    constructor (path: string)
      ensures this.path == path && pos == 0
    {
      this.path := path;
      pos := 0;
    }
  }

  ghost predicate InRange<F>(t: Table<F>) { FIRST <= t.fdIdx <= INT_MAX }

  /** Every index that the generator gives out from idx on before it comes to fd is in use. */
  ghost predicate NextFree<F>(files: map<int, F>, idx: int, fd: int) {
    && fd !in files && fd < INT_MAX
    && (if idx <= fd then Used(files, idx, fd)
        else RESTART <= fd && Used(files, idx, INT_MAX) && Used(files, RESTART, fd))
  }

  ghost predicate Used<F>(files: map<int, F>, lo: int, hi: int) { forall k :: lo <= k < hi ==> k in files }

  /** Some index of the second round is free. */
  ghost predicate HasFree<F>(files: map<int, F>) { exists g :: RESTART <= g < INT_MAX && g !in files }

  /** Index and flag after fd was given out: unchecked while the flag is clear and the index did not
      wrap, else the next free one. */
  ghost predicate Gave<F>(t: Table<F>, fd: int, t': Table<F>) {
    && t'.files == t.files && t'.fdIdx == fd + 1
    && (if !t.validationNeeded && t.fdIdx < INT_MAX
        then fd == t.fdIdx && !t'.validationNeeded
        else t'.validationNeeded && NextFree(t.files, t.fdIdx, fd))
  }

  /** map::insert does not replace an entry. */
  function Insert<F>(files: map<int, F>, fd: int, f: F): map<int, F> {
    if fd in files then files else files[fd := f]
  }

  datatype Call<F> =
    | Add(f: F, fd: int)
    | Remove(fd: int)
    | Dup(oldfd: int, fd: int)
    | Dup2(oldfd: int, newfd: int)

  ghost predicate GaveTo<F>(t: Table<F>, f: F, fd: int, t': Table<F>) {
    t'.files == Insert(t.files, fd, f) && Gave(t, fd, t'.(files := t.files))
  }

  function Removed<F>(t: Table<F>, fd: int): Table<F> {
    if fd !in t.files then t
    else var files := t.files - {fd}; Table(files, t.fdIdx, t.validationNeeded && files != map[])
  }

  /** The calls as steps. Dup of an unknown descriptor answers -1 and changes nothing. */
  ghost predicate Step<F>(t: Table<F>, c: Call<F>, t': Table<F>) {
    match c
    case Add(f, fd) => GaveTo(t, f, fd, t')
    case Remove(fd) => t' == Removed(t, fd)
    case Dup(oldfd, fd) => if oldfd in t.files then GaveTo(t, t.files[oldfd], fd, t') else t' == t && fd == -1
    case Dup2(oldfd, newfd) =>
      if oldfd !in t.files || oldfd == newfd then t' == t
      else
        var r := Removed(t, newfd);
        t' == Table(Insert(r.files, newfd, t.files[oldfd]), r.fdIdx,
                    r.validationNeeded || (r.fdIdx < newfd && newfd != 0 && newfd != 1 && newfd != 2))
  }

  // ---- The class ----

  /** Calls of the generator between giving out fd and giving out g. */
  function Distance(fd: int, g: int): int {
    if fd <= g then g - fd else INT_MAX - fd + (g - RESTART)
  }

  class FileMap {
    var files: map<int, OpenFile>
    var fdIdx: int
    var validationNeeded: bool

    function Value(): Table<OpenFile>
      reads this
    {
      Table(files, fdIdx, validationNeeded)
    }

    ghost predicate Valid()
      reads this
    {
      InRange(Value())
    }

    constructor ()
      ensures Valid() && files == map[] && fdIdx == 10000 && !validationNeeded
    {
      files, fdIdx, validationNeeded := map[], FIRST, false;
    }

    /** generate_fd_idx. */
    method Generate() returns (fd: int)
      requires Valid()
      modifies this`fdIdx, this`validationNeeded
      ensures Valid() && fdIdx == fd + 1
      ensures fd == if old(fdIdx) == 0x7fff_ffff then 100000 else old(fdIdx)
      ensures validationNeeded <==> old(validationNeeded) || old(fdIdx) == 0x7fff_ffff
    {
      if fdIdx == INT_MAX {
        fdIdx, validationNeeded := RESTART, true;
      }
      fd := fdIdx;
      fdIdx := fdIdx + 1;
    }

    /** safe_generate_fd_idx_. The search ends when a free index is left: the cyclic distance to it
        shrinks with every index tried. */
    method SafeGenerate() returns (fd: int)
      requires Valid() && HasFree(files)
      modifies this`fdIdx, this`validationNeeded
      ensures Valid() && Gave(old(Value()), fd, Value())
    {
      ghost var g :| RESTART <= g < INT_MAX && g !in files;
      ghost var idx := fdIdx;
      fd := Generate();
      if validationNeeded {
        while fd in files
          invariant Valid() && validationNeeded && fdIdx == fd + 1
          invariant if idx <= fd < INT_MAX then Used(files, idx, fd)
                    else RESTART <= fd < INT_MAX && Used(files, idx, INT_MAX) && Used(files, RESTART, fd)
          decreases Distance(fd, g)
        {
          fd := Generate();
        }
      }
    }

    method Add(f: OpenFile) returns (fd: int)
      requires Valid() && HasFree(files)
      modifies this
      ensures Valid() && Step(old(Value()), Call.Add(f, fd), Value())
      ensures old(Inv(Value())) ==> fd !in old(files) && files == old(files)[fd := f]
    {
      fd := SafeGenerate();
      files := Insert(files, fd, f);
    }

    method Remove(fd: int) returns (found: bool)
      requires Valid()
      modifies this`files, this`validationNeeded
      ensures Valid() && Step(old(Value()), Call.Remove(fd), Value())
      ensures (found <==> fd in old(files)) && files == old(files) - {fd}
    {
      if fd !in files { return false; }
      files := files - {fd};
      if validationNeeded && files == map[] {
        validationNeeded := false;
      }
      found := true;
    }

    method Dup(oldfd: int) returns (fd: int)
      requires Valid() && HasFree(files)
      modifies this
      ensures Valid() && Step(old(Value()), Call.Dup(oldfd, fd), Value())
      ensures if oldfd !in old(files) then fd == -1 && files == old(files)
              else old(Inv(Value())) ==> fd !in old(files) && files == old(files)[fd := old(files)[oldfd]]
    {
      if oldfd !in files { return -1; }
      var openFile := files[oldfd];
      fd := SafeGenerate();
      files := Insert(files, fd, openFile);
    }

    method Dup2(oldfd: int, newfd: int) returns (ret: int)
      requires Valid()
      modifies this
      ensures Valid() && Step(old(Value()), Call.Dup2(oldfd, newfd), Value())
      ensures if oldfd !in old(files) then ret == -1 && files == old(files)
              else ret == newfd && files == old(files)[newfd := old(files)[oldfd]]
    {
      if oldfd !in files { return -1; }
      var openFile := files[oldfd];
      if oldfd == newfd { return newfd; }
      if newfd in files {
        var found := Remove(newfd);
      }
      if fdIdx < newfd && newfd != 0 && newfd != 1 && newfd != 2 {
        validationNeeded := true;
      }
      files := Insert(files, newfd, openFile);
      ret := newfd;
    }
  }

  // ---- Runs ----

  /** While the flag is clear, descriptors in use lie below the index, unless it is about to wrap. */
  ghost predicate Inv<F>(t: Table<F>) {
    && InRange(t)
    && (!t.validationNeeded && t.fdIdx < INT_MAX ==> forall k :: k in t.files ==> k < t.fdIdx)
  }

  /** A dup2 that really happens, onto the next index, while the flag is clear. */
  predicate Hits<F(==)>(t: Table<F>, c: Call<F>) {
    && c.Dup2? && c.oldfd in t.files && c.oldfd != c.newfd
    && c.newfd == t.fdIdx < INT_MAX && !t.validationNeeded
  }

  /** Descriptors are ints, and a call that needs one finds one. */
  ghost predicate Allowed<F>(t: Table<F>, c: Call<F>) {
    && (c.Dup2? ==> c.newfd <= INT_MAX)
    && (c.Add? || c.Dup? ==> HasFree(t.files))
  }

  /** Every call except such a dup2 keeps the invariant, and such a dup2 breaks it. */
  lemma StepKeepsInv<F>(t: Table<F>, c: Call<F>, t': Table<F>)
    requires Inv(t) && Allowed(t, c) && Step(t, c, t')
    ensures Inv(t') <==> !Hits(t, c)
  {
    if c.Dup2? && c.oldfd in t.files && c.oldfd != c.newfd {
      assert c.newfd in t'.files && c.oldfd in Removed(t, c.newfd).files;
    }
  }

  /** The descriptor given out by a call. */
  predicate Gives<F(==)>(t: Table<F>, c: Call<F>) { c.Add? || (c.Dup? && c.oldfd in t.files) }

  /** With the invariant a descriptor given out was not in use, and from then on names its file. */
  lemma GivesFresh<F>(t: Table<F>, c: Call<F>, t': Table<F>)
    requires Inv(t) && Step(t, c, t') && Gives(t, c)
    ensures c.fd !in t.files
    ensures c.fd in t'.files && t'.files[c.fd] == if c.Add? then c.f else t.files[c.oldfd]
  {
  }

  /** Right after such a dup2, the next descriptor given out, by an add or a dup, is the one dup2 made: it
      is in use, and the new file is not entered. */
  lemma HitGivesUsed<F>(t: Table<F>, c: Call<F>, t': Table<F>, next: Call<F>, t'': Table<F>)
    requires Inv(t) && Hits(t, c) && Step(t, c, t') && Gives(t', next) && Step(t', next, t'')
    ensures next.fd == c.newfd && next.fd in t'.files && t''.files == t'.files
  {
  }

  /** The descriptor that a call makes, replaces or closes. */
  predicate Concerns<F(==)>(t: Table<F>, c: Call<F>, fd: int) {
    match c
    case Add(_, k) => fd == k
    case Remove(k) => fd == k
    case Dup(oldfd, k) => oldfd in t.files && fd == k
    case Dup2(oldfd, newfd) => oldfd in t.files && fd == newfd
  }

  predicate SameFile<F(==)>(t: Table<F>, t': Table<F>, fd: int) {
    (fd in t'.files <==> fd in t.files) && (fd in t.files ==> t'.files[fd] == t.files[fd])
  }

  /** What descriptors name after a call: dup2 of a known descriptor gives its file to the other one, whatever
      that named before; a closed descriptor names nothing; add and dup give a descriptor its file, while
      the invariant holds; and every other descriptor keeps its file. */
  lemma StepNames<F>(t: Table<F>, c: Call<F>, t': Table<F>, fd: int)
    requires Step(t, c, t')
    ensures !Concerns(t, c, fd) ==> SameFile(t, t', fd)
    ensures c.Dup2? && c.oldfd in t.files ==> c.newfd in t'.files && t'.files[c.newfd] == t.files[c.oldfd]
    ensures c.Remove? ==> c.fd !in t'.files
    ensures Inv(t) && c.Add? ==> c.fd in t'.files && t'.files[c.fd] == c.f
    ensures Inv(t) && c.Dup? && c.oldfd in t.files ==> c.fd in t'.files && t'.files[c.fd] == t.files[c.oldfd]
  {
    if Inv(t) && Gives(t, c) { GivesFresh(t, c, t'); }
  }

  ghost predicate Run<F>(ts: seq<Table<F>>, cs: seq<Call<F>>) {
    && |ts| == |cs| + 1 && ts[0] == Table(map[], FIRST, false)
    && forall i :: 0 <= i < |cs| ==> Allowed(ts[i], cs[i]) && Step(ts[i], cs[i], ts[i + 1])
  }

  lemma {:induction false} RunInv<F>(ts: seq<Table<F>>, cs: seq<Call<F>>, n: nat)
    requires Run(ts, cs) && n <= |cs| && forall i :: 0 <= i < n ==> !Hits(ts[i], cs[i])
    ensures Inv(ts[n])
  {
    if n > 0 {
      RunInv(ts, cs, n - 1);
      StepKeepsInv(ts[n - 1], cs[n - 1], ts[n]);
    }
  }

  /** In every run, as long as no dup2 has hit the next index, every descriptor given out was not in use
      and names its file, across any number of wraps of the index. */
  lemma NeverGivenTwice<F>(ts: seq<Table<F>>, cs: seq<Call<F>>, n: nat)
    requires Run(ts, cs) && n < |cs| && Gives(ts[n], cs[n])
    requires forall i :: 0 <= i < n ==> !Hits(ts[i], cs[i])
    ensures cs[n].fd !in ts[n].files && cs[n].fd in ts[n + 1].files
    ensures ts[n + 1].files[cs[n].fd] == if cs[n].Add? then cs[n].f else ts[n].files[cs[n].oldfd]
  {
    RunInv(ts, cs, n);
    GivesFresh(ts[n], cs[n], ts[n + 1]);
  }

  /** In every run, the first dup2 that hits makes the next call give out a used descriptor, if that call
      gives one out. */
  lemma FirstHit<F>(ts: seq<Table<F>>, cs: seq<Call<F>>, n: nat)
    requires Run(ts, cs) && n + 1 < |cs| && Hits(ts[n], cs[n]) && Gives(ts[n + 1], cs[n + 1])
    requires forall i :: 0 <= i < n ==> !Hits(ts[i], cs[i])
    ensures cs[n + 1].fd == cs[n].newfd && cs[n + 1].fd in ts[n + 1].files && ts[n + 2].files == ts[n + 1].files
  {
    RunInv(ts, cs, n);
    HitGivesUsed(ts[n], cs[n], ts[n + 1], cs[n + 1], ts[n + 2]);
  }

  /** Such runs exist: open, dup2 onto the next descriptor, open or dup. */
  lemma HitReachable<F>(f: F, last: Call<F>)
    requires last in {Call.Add(f, FIRST + 1), Call.Dup(FIRST, FIRST + 1)}
    ensures exists ts, cs :: Run(ts, cs) && |cs| == 3 && Hits(ts[1], cs[1]) && cs[2] == last
  {
    var one, two := map[FIRST := f], map[FIRST := f, FIRST + 1 := f];
    var cs := [Call.Add(f, FIRST), Call.Dup2(FIRST, FIRST + 1), last];
    var ts := [Table(map[], FIRST, false), Table(one, FIRST + 1, false), Table(two, FIRST + 1, false),
               Table(two, FIRST + 2, false)];
    assert RESTART !in ts[0].files && RESTART !in one && RESTART !in two;
    assert Step(ts[0], cs[0], ts[1]) && Step(ts[1], cs[1], ts[2]) && Step(ts[2], cs[2], ts[3]);
    assert Run(ts, cs) && Hits(ts[1], cs[1]);
  }

  /** In every run, a descriptor keeps its file, or stays closed, until a call concerns it. */
  lemma {:induction false} KeepsNaming<F>(ts: seq<Table<F>>, cs: seq<Call<F>>, m: nat, n: nat, fd: int)
    requires Run(ts, cs) && m <= n <= |cs| && forall i :: m <= i < n ==> !Concerns(ts[i], cs[i], fd)
    ensures SameFile(ts[m], ts[n], fd)
  {
    if m < n {
      KeepsNaming(ts, cs, m, n - 1, fd);
      StepNames(ts[n - 1], cs[n - 1], ts[n], fd);
    }
  }

  /** The file that a call gives to the descriptor it concerns. */
  function Given<F>(t: Table<F>, c: Call<F>): map<int, F> {
    match c
    case Add(f, fd) => map[fd := f]
    case Remove(_) => map[]
    case Dup(oldfd, fd) => if oldfd in t.files then map[fd := t.files[oldfd]] else map[]
    case Dup2(oldfd, newfd) => if oldfd in t.files then map[newfd := t.files[oldfd]] else map[]
  }

  /** In every run, as long as no dup2 has hit the next index, a descriptor names what the last call that
      concerned it gave to it, and nothing if that was a close or there was none. */
  lemma {:induction false} NamesLast<F>(ts: seq<Table<F>>, cs: seq<Call<F>>, k: nat, n: nat, fd: int)
    requires Run(ts, cs) && k <= n <= |cs| && forall i :: 0 <= i < n ==> !Hits(ts[i], cs[i])
    requires forall i :: k <= i < n ==> !Concerns(ts[i], cs[i], fd)
    requires k > 0 ==> Concerns(ts[k - 1], cs[k - 1], fd)
    ensures var given := if k == 0 then map[] else Given(ts[k - 1], cs[k - 1]);
      (fd in ts[n].files <==> fd in given) && (fd in given ==> ts[n].files[fd] == given[fd])
  {
    KeepsNaming(ts, cs, k, n, fd);
    if k > 0 {
      RunInv(ts, cs, k - 1);
      StepNames(ts[k - 1], cs[k - 1], ts[k], fd);
    }
  }
}
