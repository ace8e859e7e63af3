/**
 * `clean_path` of src/clean_up.py: list the files under a directory, keep the
 * build artefacts, group them by codename and build name, and delete the files
 * of all but the `k` newest builds of every codename.
 *
 * The filesystem is a `FileStore` holding a set of paths; the directory walk
 * (`os.walk`) is an input, one `WalkStep` per directory, and `os.remove` takes a
 * path out of the set or fails when it is not there. Python exceptions are the
 * non-`Done` outcomes; an exception ends the run with whatever was removed
 * before it still removed.
 */
module CleanUp {
  import opened Wrappers
  import opened Text
  import opened BuildNames
  import opened Cohorts
  import opened Seqs

  /** `main`'s default for `-n`: the number of builds kept per codename. */
  const DefaultBuildsToKeep: int := 3

  /** How a run ends: normally, or with the exception that stopped it. */
  datatype Outcome =
    | Done
    | EmptyPath                  // `path[-1]` on an empty path: IndexError
    | NoBuildName(path: string)  // `build_re.search(f)` is None: AttributeError
    | MissingToken(path: string) // fewer than five `-` tokens: IndexError
    | BadDate(path: string)      // `strptime` rejects the date token: ValueError
    | FileNotFound(path: string) // `os.remove` of a path that is not there

  /** The exceptions of the grouping loop. */
  predicate ScanError(o: Outcome) {
    o.NoBuildName? || o.MissingToken? || o.BadDate?
  }

  /** One triple `(dirpath, dirnames, filenames)` that `os.walk` yields. */
  datatype WalkStep = WalkStep(dirpath: string, dirnames: seq<string>, filenames: seq<string>)

  /** `path[:-1] if path[-1] == "/" else path`, or `None` where `path[-1]` raises. */
  function ScanDir(path: string): (r: Option<string>)
    ensures r.Some? <==> path != []
    ensures r.Some? ==> |r.value| <= |path| && r.value == path[..|r.value|]
    ensures r.Some? ==> (|r.value| < |path| <==> path[|path| - 1] == '/') && |path| - |r.value| <= 1
  {
    if path == [] then None
    else if path[|path| - 1] == '/' then Some(path[..|path| - 1])
    else Some(path)
  }

  /** `[dirpath + "/" + f for f in filenames]`. */
  function InDir(dirpath: string, names: seq<string>): (r: seq<string>)
    ensures |r| == |names|
    ensures forall i :: 0 <= i < |names| ==> r[i] == dirpath + "/" + names[i]
  {
    if names == [] then []
    else InDir(dirpath, names[..|names| - 1]) + [dirpath + "/" + names[|names| - 1]]
  }

  /** The `files` list after the walk loop (lines 30-31). */
  function Listing(walk: seq<WalkStep>): seq<string> {
    if walk == [] then []
    else
      var last := walk[|walk| - 1];
      Listing(walk[..|walk| - 1]) + InDir(last.dirpath, last.filenames)
  }

  /** `[f for f in files if files_re.match(basename(f))]`. */
  function Selection(files: seq<string>): (r: seq<string>)
    ensures forall i :: 0 <= i < |r| ==> Selected(r[i]) && r[i] in files
    ensures forall f :: f in files && Selected(f) ==> f in r
  {
    Filter(files, Selected)
  }

  /** The body of the grouping loop up to the dictionary update (lines 38-42):
      the build name found in the path, its codename and its parsed date. */
  function ScanFile(f: string): (r: Result<Entry, Outcome>)
    ensures r.Success? ==> r.value.path == f && ValidKey(r.value.date)
    ensures r.Failure? ==> ScanError(r.error) && r.error.path == f
  {
    match Search(f)
    case None => Failure(NoBuildName(f))
    case Some(hit) => ScanName(f, Name(hit.id))
  }

  /** Lines 39-42 for the build name `name` found in `f`. */
  function ScanName(f: string, name: string): (r: Result<Entry, Outcome>)
    ensures r.Success? ==> r.value.path == f && r.value.name == name && ValidKey(r.value.date)
    ensures r.Failure? ==> ScanError(r.error) && r.error.path == f
  {
    var parts := Split(name, '/');
    var tokens := Split(parts[|parts| - 1], '-');
    if |tokens| <= 4 then Failure(MissingToken(f))
    else
      match ParseDate(tokens[2])
      case None => Failure(BadDate(f))
      case Some(date) => Success(Entry(name, tokens[4], date, f))
  }

  /** Scanning a well-formed build name takes its codename (the version plays
      no part) and its date token's date, or fails on that date. */
  lemma ScanWellFormed(f: string, id: BuildId)
    requires WellFormed(id)
    ensures ScanName(f, Name(id)) == match ParseDate(id.date)
      case None => Failure(BadDate(f))
      case Some(date) => Success(Entry(Name(id), id.codename, date, f))
  {
    NameWhole(id);
    NameTokens(id);
  }

  /** On a selected file the scan cannot fail for want of a name or a token:
      the entry carries the name's codename (token 4, the version plays no part)
      and the date token's date, or the scan fails on that date. */
  lemma ScanSelected(f: string)
    requires Selected(f)
    ensures var id := Search(f).value.id;
      ScanFile(f) == match ParseDate(id.date)
        case None => Failure(BadDate(f))
        case Some(date) => Success(Entry(Name(id), id.codename, date, f))
  {
    SelectedFound(f);
    ScanWellFormed(f, Search(f).value.id);
  }

  /** The entries of the grouping loop; the first failing file ends it. */
  function ScanAll(fs: seq<string>): (r: Result<seq<Entry>, Outcome>)
    ensures r.Success? ==> Paths(r.value) == fs
    ensures r.Failure? ==> ScanError(r.error) && r.error.path in fs
  {
    if fs == [] then Success([])
    else
      var front := fs[..|fs| - 1];
      assert fs == front + [fs[|fs| - 1]];
      match ScanAll(front)
      case Failure(o) => Failure(o)
      case Success(es) =>
        match ScanFile(fs[|fs| - 1])
        case Failure(o) => Failure(o)
        case Success(e) =>
          assert (es + [e])[..|es|] == es;
          Success(es + [e])
  }

  lemma GroupSnoc(es: seq<Entry>, e: Entry)
    ensures Group(es + [e]) == AddEntry(Group(es), e)
  {
    assert (es + [e])[..|es|] == es;
  }

  lemma {:induction false} ScanAllPrefix(a: seq<string>, b: seq<string>)
    requires ScanAll(a).Failure?
    ensures ScanAll(a + b) == ScanAll(a)
    decreases |b|
  {
    if b == [] {
      assert a + b == a;
    } else {
      assert (a + b)[..|a + b| - 1] == a + b[..|b| - 1];
      ScanAllPrefix(a, b[..|b| - 1]);
    }
  }

  /** A file the scan rejects ends the grouping loop. */
  lemma ScanAllStops(fs: seq<string>, t: nat, o: Outcome)
    requires t <= |fs| && ScanAll(fs[..t]) == Failure(o)
    ensures ScanAll(fs) == Failure(o)
  {
    assert fs == fs[..t] + fs[t..];
    ScanAllPrefix(fs[..t], fs[t..]);
  }

  /** One file the scan rejects stops the whole grouping loop. */
  lemma {:induction false} ScanAllFails(fs: seq<string>, t: nat)
    requires t < |fs| && ScanFile(fs[t]).Failure?
    ensures ScanAll(fs).Failure?
  {
    var u := fs[..t + 1];
    assert u[..|u| - 1] == fs[..t] && u[|u| - 1] == fs[t];
    assert ScanAll(u).Failure?;
    assert fs == u + fs[t + 1..];
    ScanAllPrefix(u, fs[t + 1..]);
  }

  lemma ScanAllSnoc(fs: seq<string>, f: string)
    requires ScanAll(fs).Success? && ScanFile(f).Success?
    ensures ScanAll(fs + [f]) == Success(ScanAll(fs).value + [ScanFile(f).value])
  {
    assert (fs + [f])[..|fs|] == fs;
  }

  lemma ScanAllSnocFails(fs: seq<string>, f: string)
    requires ScanAll(fs).Success? && ScanFile(f).Failure?
    ensures ScanAll(fs + [f]) == Failure(ScanFile(f).error)
  {
    assert (fs + [f])[..|fs|] == fs;
  }

  /** A file scanned successfully adds its entry. */
  lemma ScanStep(fs: seq<string>, i: nat, es: seq<Entry>, e: Entry)
    requires i < |fs| && ScanAll(fs[..i]) == Success(es) && ScanFile(fs[i]) == Success(e)
    ensures ScanAll(fs[..i + 1]) == Success(es + [e])
  {
    PrefixStep(fs, i);
    ScanAllSnoc(fs[..i], fs[i]);
  }

  /** A file the scan rejects ends the grouping loop with its error. */
  lemma ScanStopAt(fs: seq<string>, i: nat, es: seq<Entry>, o: Outcome)
    requires i < |fs| && ScanAll(fs[..i]) == Success(es) && ScanFile(fs[i]) == Failure(o)
    ensures ScanAll(fs[..i + 1]) == Failure(o)
  {
    PrefixStep(fs, i);
    ScanAllSnocFails(fs[..i], fs[i]);
  }

  // ----- os.remove over a list of paths -----

  /** The files and the outcome after `remove` of each path in turn; the first
      missing path raises and ends the run. */
  function RemoveEach(fs: set<string>, ps: seq<string>): (r: (set<string>, Outcome))
    ensures r.0 <= fs
    ensures forall p :: p in fs && p !in ps ==> p in r.0
    ensures r.1 == Done || (r.1.FileNotFound? && r.1.path in ps)
  {
    if ps == [] then (fs, Done)
    else
      var (fs', o) := RemoveEach(fs, ps[..|ps| - 1]);
      var p := ps[|ps| - 1];
      if o != Done then (fs', o)
      else if p in fs' then (fs' - {p}, Done)
      else (fs', FileNotFound(p))
  }

  lemma {:induction false} RemoveEachAppend(fs: set<string>, a: seq<string>, b: seq<string>)
    ensures RemoveEach(fs, a + b) ==
      var r := RemoveEach(fs, a); if r.1 != Done then r else RemoveEach(r.0, b)
    decreases |b|
  {
    if b == [] {
      assert a + b == a;
    } else {
      assert (a + b)[..|a + b| - 1] == a + b[..|b| - 1];
      RemoveEachAppend(fs, a, b[..|b| - 1]);
    }
  }

  predicate NoDuplicates(s: seq<string>) {
    forall i, j :: 0 <= i < j < |s| ==> s[i] != s[j]
  }

  lemma LastIsNew(ps: seq<string>)
    requires NoDuplicates(ps) && ps != []
    ensures NoDuplicates(ps[..|ps| - 1]) && ps[|ps| - 1] !in ps[..|ps| - 1]
  {
    var ps' := ps[..|ps| - 1];
    assert forall i :: 0 <= i < |ps'| ==> ps'[i] == ps[i] != ps[|ps| - 1];
  }

  lemma ElementsSnoc(ps: seq<string>, front: seq<string>, p: string)
    requires ps == front + [p]
    ensures (set q | q in ps) == (set q | q in front) + {p}
  {
  }

  /** Removing distinct paths that are all there succeeds and removes them. */
  lemma {:induction false} RemoveEachOk(fs: set<string>, ps: seq<string>)
    requires NoDuplicates(ps) && forall p :: p in ps ==> p in fs
    ensures RemoveEach(fs, ps) == (fs - (set p | p in ps), Done)
  {
    if ps != [] {
      var ps', p := ps[..|ps| - 1], ps[|ps| - 1];
      LastIsNew(ps);
      RemoveEachOk(fs, ps');
      var left := fs - (set q | q in ps');
      assert p in left;
      assert RemoveEach(fs, ps) == (left - {p}, Done);
      ElementsSnoc(ps, ps', p);
      assert left - {p} == fs - (set q | q in ps);
    } else {
      assert (set q | q in ps) == {};
      assert fs - (set q | q in ps) == fs;
    }
  }

  // ----- the whole of clean_path -----

  /** The files left and the outcome of `clean_path(path, k)` when `os.walk`
      yields `walk`. */
  function CleanSpec(fs: set<string>, path: string, walk: seq<WalkStep>, k: int): (set<string>, Outcome) {
    if path == [] then (fs, EmptyPath)
    else
      match ScanAll(Selection(Listing(walk)))
      case Failure(o) => (fs, o)
      case Success(es) => RemoveEach(fs, Doomed(Group(es), k))
  }

  lemma DoomedSnoc(g: seq<Cohort>, co: Cohort, k: int)
    ensures Doomed(g + [co], k) == Doomed(g, k) + CohortDoomed(co, k)
  {
    assert (g + [co])[..|g|] == g;
  }

  lemma DoomedAppendStep(a: seq<Cohort>, b: seq<Cohort>, co: Cohort, k: int)
    requires Doomed(a + b, k) == Doomed(a, k) + Doomed(b, k)
    ensures Doomed(a + (b + [co]), k) == Doomed(a, k) + Doomed(b + [co], k)
  {
    AppendAssoc(a, b, [co]);
    DoomedSnoc(a + b, co, k);
    DoomedSnoc(b, co, k);
    AppendAssoc(Doomed(a, k), Doomed(b, k), CohortDoomed(co, k));
  }

  lemma {:induction false} DoomedAppend(a: seq<Cohort>, b: seq<Cohort>, k: int)
    ensures Doomed(a + b, k) == Doomed(a, k) + Doomed(b, k)
    decreases |b|
  {
    if b == [] {
      assert a + b == a;
    } else {
      var b', co := b[..|b| - 1], b[|b| - 1];
      assert b == b' + [co];
      DoomedAppend(a, b', k);
      DoomedAppendStep(a, b', co, k);
    }
  }

  /** A removal that raises ends the removals: whatever follows is not done. */
  lemma RemoveEachStops(fs: set<string>, a: seq<string>, b: seq<string>)
    requires RemoveEach(fs, a).1 != Done
    ensures RemoveEach(fs, a + b) == RemoveEach(fs, a)
  {
    RemoveEachAppend(fs, a, b);
  }

  // ----- what a run removes -----

  lemma SnocDistinct(s: seq<string>, x: string)
    requires NoDuplicates(s) && x !in s
    ensures NoDuplicates(s + [x])
  {
    forall i, j | 0 <= i < j < |s| + 1 ensures (s + [x])[i] != (s + [x])[j] {
      assert (s + [x])[i] == s[i];
    }
  }

  lemma {:induction false} FilterDistinct(s: seq<string>, p: string -> bool)
    requires NoDuplicates(s)
    ensures NoDuplicates(Filter(s, p))
  {
    if s != [] {
      var front, last := s[..|s| - 1], s[|s| - 1];
      LastIsNew(s);
      FilterDistinct(front, p);
      assert s == front + [last];
      FilterSnoc(front, last, p);
      if p(last) {
        SnocDistinct(Filter(front, p), last);
      } else {
        assert Filter(s, p) == Filter(front, p) + [];
      }
    }
  }

  lemma SelectionDistinct(files: seq<string>)
    requires NoDuplicates(files)
    ensures NoDuplicates(Selection(files))
  {
    FilterDistinct(files, Selected);
  }

  lemma {:induction false} CountAtMostOnce(b: seq<string>, x: string)
    requires NoDuplicates(b)
    ensures multiset(b)[x] <= 1
  {
    if b != [] {
      LastIsNew(b);
      CountAtMostOnce(b[..|b| - 1], x);
      assert b == b[..|b| - 1] + [b[|b| - 1]];
      if b[|b| - 1] == x {
        assert multiset(b[..|b| - 1])[x] == 0;
      }
    }
  }

  /** A sequence counted within one without repeats has no repeats either. */
  lemma SubMultisetDistinct(a: seq<string>, b: seq<string>)
    requires multiset(a) <= multiset(b) && NoDuplicates(b)
    ensures NoDuplicates(a)
  {
    forall i, j | 0 <= i < j < |a| ensures a[i] != a[j] {
      if a[i] == a[j] {
        assert a == a[..i] + [a[i]] + a[i + 1..j] + [a[j]] + a[j + 1..];
        assert multiset(a)[a[i]] >= 2;
        CountAtMostOnce(b, a[i]);
      }
    }
  }

  /** Only the selected files of the walk are ever removed. */
  lemma DoomedSelected(files: seq<string>, es: seq<Entry>, k: int, p: string)
    requires ScanAll(Selection(files)) == Success(es) && p in Doomed(Group(es), k)
    ensures p in Selection(files)
  {
    DoomedWithin(Group(es), k);
    GroupPaths(es);
    assert p in multiset(Doomed(Group(es), k));
    assert p in multiset(Paths(es));
  }

  /** A file whose basename `files_re` rejects is never removed, and nothing
      outside the file set is created. */
  lemma UnselectedKept(fs: set<string>, path: string, walk: seq<WalkStep>, k: int, f: string)
    requires f in fs && !Selected(f)
    ensures f in CleanSpec(fs, path, walk, k).0
    ensures CleanSpec(fs, path, walk, k).0 <= fs
  {
    var sel := Selection(Listing(walk));
    if path != [] && ScanAll(sel).Success? {
      var es := ScanAll(sel).value;
      if f in Doomed(Group(es), k) {
        DoomedSelected(Listing(walk), es, k, f);
      }
    }
  }

  lemma FailedScanRemovesNothing(fs: set<string>, path: string, walk: seq<WalkStep>, k: int)
    requires ScanAll(Selection(Listing(walk))).Failure?
    ensures CleanSpec(fs, path, walk, k).0 == fs
    ensures CleanSpec(fs, path, walk, k).1 != Done
  {
    var o := ScanAll(Selection(Listing(walk))).error;
    if path != [] {
      assert CleanSpec(fs, path, walk, k) == (fs, o);
      assert o != Done by { assert ScanError(o); }
    }
  }

  /** A selected file whose scan fails makes the whole run fail before any
      removal. */
  lemma ScanFailureRemovesNothing(fs: set<string>, path: string, walk: seq<WalkStep>, k: int, f: string)
    requires f in Selection(Listing(walk)) && ScanFile(f).Failure?
    ensures CleanSpec(fs, path, walk, k).0 == fs
    ensures CleanSpec(fs, path, walk, k).1 != Done
  {
    var sel := Selection(Listing(walk));
    var t :| 0 <= t < |sel| && sel[t] == f;
    ScanAllFails(sel, t);
    FailedScanRemovesNothing(fs, path, walk, k);
  }

  /**
   * All grouping comes before any removal: a selected file whose date token
   * `strptime` rejects makes the run raise with every file still in place.
   */
  lemma BadDateRemovesNothing(fs: set<string>, path: string, walk: seq<WalkStep>, k: int, f: string)
    requires f in Listing(walk) && Selected(f)
    requires var hit := Search(f); hit.Some? && ParseDate(hit.value.id.date).None?
    ensures CleanSpec(fs, path, walk, k).0 == fs
    ensures CleanSpec(fs, path, walk, k).1 != Done
  {
    ScanSelected(f);
    assert ScanFile(f) == Failure(BadDate(f));
    ScanFailureRemovesNothing(fs, path, walk, k, f);
  }

  /**
   * The outcome of a run over a walk that lists each file once, all of them
   * present: it ends normally, the files of the evicted builds are gone and
   * nothing else is; a selected file is removed exactly when its build is among
   * the oldest of its codename.
   */
  lemma CleanRemovesEvicted(fs: set<string>, path: string, walk: seq<WalkStep>, k: int, es: seq<Entry>)
    requires path != [] && NoDuplicates(Listing(walk)) && forall f :: f in Listing(walk) ==> f in fs
    requires ScanAll(Selection(Listing(walk))) == Success(es)
    ensures CleanSpec(fs, path, walk, k) == (fs - (set p | p in Doomed(Group(es), k)), Done)
    ensures forall e :: e in es ==>
      (e.path in CleanSpec(fs, path, walk, k).0 <==> !Evicts(Group(es), k, e.codename, e.name))
  {
    var sel := Selection(Listing(walk));
    var doomed := Doomed(Group(es), k);
    SelectionDistinct(Listing(walk));
    DoomedWithin(Group(es), k);
    GroupPaths(es);
    SubMultisetDistinct(doomed, sel);
    forall p | p in doomed ensures p in fs {
      DoomedSelected(Listing(walk), es, k, p);
    }
    RemoveEachOk(fs, doomed);
    assert DistinctPaths(es) by {
      forall i, j | 0 <= i < j < |es| ensures es[i].path != es[j].path {
        assert es[i].path == sel[i] && es[j].path == sel[j];
      }
    }
    forall e | e in es
      ensures e.path in CleanSpec(fs, path, walk, k).0 <==> !Evicts(Group(es), k, e.codename, e.name)
    {
      var t :| 0 <= t < |es| && es[t] == e;
      assert e.path == sel[t];
      DoomedEntries(es, k, e);
    }
  }

  /** With `k <= 0` every selected file is removed. */
  lemma KeepNoneRemovesAll(fs: set<string>, path: string, walk: seq<WalkStep>, k: int, es: seq<Entry>, f: string)
    requires path != [] && NoDuplicates(Listing(walk)) && forall f :: f in Listing(walk) ==> f in fs
    requires ScanAll(Selection(Listing(walk))) == Success(es)
    requires k <= 0 && f in Selection(Listing(walk))
    ensures f !in CleanSpec(fs, path, walk, k).0
  {
    var sel := Selection(Listing(walk));
    var t :| 0 <= t < |sel| && sel[t] == f;
    assert Paths(es) == sel;
    var e := es[t];
    assert e.path == f && e in es;
    KeepNoneEvicts(es, k, e);
    CleanRemovesEvicted(fs, path, walk, k, es);
  }

  // ----- a second run -----

  /** The files of a listing that are still in `left`, in order: what a walk of
      the same tree lists after a run. */
  function Keep(files: seq<string>, left: set<string>): (r: seq<string>)
    ensures forall f :: f in r <==> f in files && f in left
  {
    if files == [] then []
    else
      var last := files[|files| - 1];
      Keep(files[..|files| - 1], left) + (if last in left then [last] else [])
  }

  /** The entries whose file is still in `left`, in order. */
  function Surviving(es: seq<Entry>, left: set<string>): (r: seq<Entry>)
    ensures forall e :: e in r <==> e in es && e.path in left
  {
    if es == [] then []
    else
      var last := es[|es| - 1];
      Surviving(es[..|es| - 1], left) + (if last.path in left then [last] else [])
  }

  lemma SelectionSnoc(files: seq<string>, f: string)
    ensures Selection(files + [f]) == Selection(files) + if Selected(f) then [f] else []
  {
    FilterSnoc(files, f, Selected);
  }

  lemma KeepSnoc(files: seq<string>, f: string, left: set<string>)
    ensures Keep(files + [f], left) == Keep(files, left) + if f in left then [f] else []
  {
    assert (files + [f])[..|files|] == files;
  }

  lemma SurvivingSnoc(es: seq<Entry>, e: Entry, left: set<string>)
    ensures Surviving(es + [e], left) == Surviving(es, left) + if e.path in left then [e] else []
  {
    assert (es + [e])[..|es|] == es;
  }

  /** Filtering by the files left and by `files_re` commute. */
  lemma {:induction false} SelectionKeep(files: seq<string>, left: set<string>)
    ensures Selection(Keep(files, left)) == Keep(Selection(files), left)
  {
    if files != [] {
      var front, last := files[..|files| - 1], files[|files| - 1];
      assert files == front + [last];
      SelectionKeep(front, left);
      KeepSnoc(front, last, left);
      SelectionSnoc(front, last);
      if last in left {
        SelectionSnoc(Keep(front, left), last);
      } else {
        assert Keep(front, left) + [] == Keep(front, left);
      }
      if Selected(last) {
        KeepSnoc(Selection(front), last, left);
      } else {
        assert Selection(front) + [] == Selection(front);
      }
    }
  }

  lemma ScanAllLast(fs: seq<string>)
    requires fs != [] && ScanAll(fs).Success?
    ensures ScanAll(fs[..|fs| - 1]).Success? && ScanFile(fs[|fs| - 1]).Success?
    ensures ScanAll(fs).value == ScanAll(fs[..|fs| - 1]).value + [ScanFile(fs[|fs| - 1]).value]
  {
  }

  /** Scanning the files still there gives the entries of those files. */
  lemma {:induction false} ScanAllKeep(fs: seq<string>, left: set<string>)
    requires ScanAll(fs).Success?
    ensures ScanAll(Keep(fs, left)) == Success(Surviving(ScanAll(fs).value, left))
  {
    if fs != [] {
      var front, last := fs[..|fs| - 1], fs[|fs| - 1];
      assert fs == front + [last];
      ScanAllLast(fs);
      ScanAllKeep(front, left);
      var es', e := ScanAll(front).value, ScanFile(last).value;
      KeepSnoc(front, last, left);
      SurvivingSnoc(es', e, left);
      if last in left {
        ScanAllSnoc(Keep(front, left), last);
      } else {
        assert Keep(front, left) + [] == Keep(front, left);
        assert Surviving(es', left) + [] == Surviving(es', left);
      }
    }
  }

  /**
   * Idempotence: after a run that ends normally, a second run with the same
   * `k` over the same tree (its walk listing the files still there) removes
   * nothing, because each codename now has at most `max(k, 0)` builds.
   */
  lemma SecondRunRemovesNothing(fs: set<string>, path: string, walk: seq<WalkStep>, walk': seq<WalkStep>,
                                k: int, es: seq<Entry>)
    requires path != [] && NoDuplicates(Listing(walk)) && forall f :: f in Listing(walk) ==> f in fs
    requires ScanAll(Selection(Listing(walk))) == Success(es)
    requires Listing(walk') == Keep(Listing(walk), CleanSpec(fs, path, walk, k).0)
    ensures var left := CleanSpec(fs, path, walk, k).0;
      CleanSpec(left, path, walk', k) == (left, Done)
  {
    var left := CleanSpec(fs, path, walk, k).0;
    CleanRemovesEvicted(fs, path, walk, k, es);
    SelectionKeep(Listing(walk), left);
    ScanAllKeep(Selection(Listing(walk)), left);
    var sub := Surviving(es, left);
    SecondRunIdle(es, sub, k);
  }

  /** The files left and the outcome of `main`'s loop over `paths`. */
  function CleanAllSpec(fs: set<string>, paths: seq<string>, walks: seq<seq<WalkStep>>, k: int): (set<string>, Outcome)
    requires |walks| == |paths|
  {
    if paths == [] then (fs, Done)
    else
      var (fs', o) := CleanAllSpec(fs, paths[..|paths| - 1], walks[..|walks| - 1], k);
      if o != Done then (fs', o)
      else CleanSpec(fs', paths[|paths| - 1], walks[|walks| - 1], k)
  }

  lemma CleanAllNext(fs: set<string>, paths: seq<string>, walks: seq<seq<WalkStep>>, k: int, i: nat)
    requires |walks| == |paths| && i < |paths|
    ensures CleanAllSpec(fs, paths[..i + 1], walks[..i + 1], k) ==
      var r := CleanAllSpec(fs, paths[..i], walks[..i], k);
      if r.1 != Done then r else CleanSpec(r.0, paths[i], walks[i], k)
  {
    assert paths[..i + 1][..i] == paths[..i] && walks[..i + 1][..i] == walks[..i];
  }

  lemma {:induction false} CleanAllStops(fs: set<string>, p1: seq<string>, w1: seq<seq<WalkStep>>,
                                         p2: seq<string>, w2: seq<seq<WalkStep>>, k: int)
    requires |w1| == |p1| && |w2| == |p2|
    requires CleanAllSpec(fs, p1, w1, k).1 != Done
    ensures CleanAllSpec(fs, p1 + p2, w1 + w2, k) == CleanAllSpec(fs, p1, w1, k)
    decreases |p2|
  {
    if p2 == [] {
      assert p1 + p2 == p1 && w1 + w2 == w1;
    } else {
      assert (p1 + p2)[..|p1 + p2| - 1] == p1 + p2[..|p2| - 1];
      assert (w1 + w2)[..|w1 + w2| - 1] == w1 + w2[..|w2| - 1];
      CleanAllStops(fs, p1, w1, p2[..|p2| - 1], w2[..|w2| - 1], k);
    }
  }

  /** The filesystem, as the set of paths of its files. */
  class FileStore {
    var files: set<string>

    constructor (initial: set<string>)
      ensures files == initial
    {
      files := initial;
    }

    /** `os.remove(p)`. */
    method Remove(p: string) returns (ok: bool)
      modifies this
      ensures ok == (p in old(files))
      ensures files == old(files) - {p}
    {
      ok := p in files;
      files := files - {p};
    }

    /** `list(map(remove, ps))`: remove each path, stopping at the first that
        raises. */
    method RemoveAll(ps: seq<string>) returns (outcome: Outcome)
      modifies this
      ensures (files, outcome) == RemoveEach(old(files), ps)
    {
      var i := 0;
      while i < |ps|
        invariant 0 <= i <= |ps|
        invariant (files, Done) == RemoveEach(old(files), ps[..i])
      {
        var before := files;
        var ok := Remove(ps[i]);
        assert ps[..i + 1][..i] == ps[..i] && ps[..i + 1][i] == ps[i];
        if !ok {
          assert files == before;
          assert (files, FileNotFound(ps[i])) == RemoveEach(old(files), ps[..i + 1]);
          assert ps == ps[..i + 1] + ps[i + 1..];
          RemoveEachStops(old(files), ps[..i + 1], ps[i + 1..]);
          return FileNotFound(ps[i]);
        }
        i := i + 1;
      }
      assert ps[..i] == ps;
      return Done;
    }

    /** One pass of the eviction loop (lines 51-56): sort the builds of one
        codename by date and remove the files of all but the newest `k`. */
    method EvictCohort(co: Cohort, k: int) returns (outcome: Outcome)
      modifies this
      ensures (files, outcome) == RemoveEach(old(files), CohortDoomed(co, k))
    {
      var buildList := SortByDate(co.builds);
      var n := |buildList|;
      if n <= k {
        assert Evicted(buildList, k) == [];
        return Done;
      }
      var end := if n - k <= n then n - k else n;
      var doomed := buildList[..end];
      assert doomed == Evicted(buildList, k);
      var j := 0;
      while j < |doomed|
        invariant 0 <= j <= |doomed|
        invariant (files, Done) == RemoveEach(old(files), BuildPaths(doomed[..j]))
      {
        PrefixStep(doomed, j);
        var removed := RemoveAll(doomed[j].paths);
        RemoveEachAppend(old(files), BuildPaths(doomed[..j]), doomed[j].paths);
        if removed != Done {
          SplitAt(doomed, j + 1);
          BuildPathsAppend(doomed[..j + 1], doomed[j + 1..]);
          RemoveEachStops(old(files), BuildPaths(doomed[..j + 1]), BuildPaths(doomed[j + 1..]));
          return removed;
        }
        j := j + 1;
      }
      WholePrefix(doomed);
      return Done;
    }

    /** The eviction loop (lines 50-56), codename after codename. */
    method Evict(groups: seq<Cohort>, k: int) returns (outcome: Outcome)
      modifies this
      ensures (files, outcome) == RemoveEach(old(files), Doomed(groups, k))
    {
      var i := 0;
      while i < |groups|
        invariant 0 <= i <= |groups|
        invariant (files, Done) == RemoveEach(old(files), Doomed(groups[..i], k))
      {
        PrefixStep(groups, i);
        outcome := EvictCohort(groups[i], k);
        RemoveEachAppend(old(files), Doomed(groups[..i], k), CohortDoomed(groups[i], k));
        if outcome != Done {
          SplitAt(groups, i + 1);
          DoomedAppend(groups[..i + 1], groups[i + 1..], k);
          RemoveEachStops(old(files), Doomed(groups[..i + 1], k), Doomed(groups[i + 1..], k));
          return outcome;
        }
        i := i + 1;
      }
      WholePrefix(groups);
      return Done;
    }

    /** `clean_path(path, k)`, with `walk` standing for what `os.walk(scandir)`
        yields. */
    method CleanPath(path: string, walk: seq<WalkStep>, k: int) returns (outcome: Outcome)
      modifies this
      ensures (files, outcome) == CleanSpec(old(files), path, walk, k)
    {
      var scandir := ScanDir(path);
      if scandir.None? {
        return EmptyPath;
      }
      var listing := ListWalk(walk);
      var buildFiles := Selection(listing);
      var groups;
      groups, outcome := GroupFiles(buildFiles);
      if outcome != Done {
        return outcome;
      }
      outcome := Evict(groups, k);
    }

    /** `main`'s loop: `clean_path` on every path in turn, `walks[i]` being the
        walk of `paths[i]`; an exception ends the run. */
    method CleanPaths(paths: seq<string>, walks: seq<seq<WalkStep>>, k: int) returns (outcome: Outcome)
      requires |walks| == |paths|
      modifies this
      ensures (files, outcome) == CleanAllSpec(old(files), paths, walks, k)
    {
      var i := 0;
      while i < |paths|
        invariant 0 <= i <= |paths|
        invariant (files, Done) == CleanAllSpec(old(files), paths[..i], walks[..i], k)
      {
        ghost var before := files;
        outcome := CleanPath(paths[i], walks[i], k);
        CleanAllNext(old(files), paths, walks, k, i);
        if outcome != Done {
          SplitAt(paths, i + 1);
          SplitAt(walks, i + 1);
          CleanAllStops(old(files), paths[..i + 1], walks[..i + 1], paths[i + 1..], walks[i + 1..], k);
          return outcome;
        }
        i := i + 1;
      }
      WholePrefix(paths);
      WholePrefix(walks);
      return Done;
    }
  }

  /** The `files` list of the walk loop (lines 30-31). */
  method ListWalk(walk: seq<WalkStep>) returns (listing: seq<string>)
    ensures listing == Listing(walk)
  {
    listing := [];
    var i := 0;
    while i < |walk|
      invariant 0 <= i <= |walk| && listing == Listing(walk[..i])
    {
      PrefixStep(walk, i);
      listing := listing + InDir(walk[i].dirpath, walk[i].filenames);
      i := i + 1;
    }
    WholePrefix(walk);
  }

  /** The grouping loop (lines 37-48): the `builds` dictionary, or the
      exception the first rejected file raises. */
  method GroupFiles(buildFiles: seq<string>) returns (groups: seq<Cohort>, outcome: Outcome)
    ensures outcome == Done ==> ScanAll(buildFiles).Success? && groups == Group(ScanAll(buildFiles).value)
    ensures outcome != Done ==> ScanAll(buildFiles) == Failure(outcome)
  {
    groups := [];
    ghost var entries: seq<Entry> := [];
    var i := 0;
    while i < |buildFiles|
      invariant 0 <= i <= |buildFiles|
      invariant ScanAll(buildFiles[..i]) == Success(entries) && groups == Group(entries)
    {
      var scanned := ScanFile(buildFiles[i]);
      if scanned.Failure? {
        ScanStopAt(buildFiles, i, entries, scanned.error);
        ScanAllStops(buildFiles, i + 1, scanned.error);
        return groups, scanned.error;
      }
      ScanStep(buildFiles, i, entries, scanned.value);
      GroupSnoc(entries, scanned.value);
      groups := AddEntry(groups, scanned.value);
      entries := entries + [scanned.value];
      i := i + 1;
    }
    WholePrefix(buildFiles);
    return groups, Done;
  }
}
