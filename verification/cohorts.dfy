/**
 * The grouping and eviction of `clean_path`: selected files are grouped first by
 * codename and then by build name (`builds = {codename: {buildname: (date,
 * [path, ...])}}`), each codename's builds are sorted by date with a stable
 * sort, and the oldest `n - k` builds of each codename lose all their files.
 *
 * Python dictionaries keep insertion order, so each dictionary is a sequence
 * here (`Cohort`s for the outer one, `Build`s for the inner one) whose keys are
 * distinct, and a lookup is the first index holding the key.
 */
module Cohorts {
  import opened Wrappers

  /** One selected file: its build name, the codename and date taken from that
      name, and the file's path. */
  datatype Entry = Entry(name: string, codename: string, date: int, path: string)

  /** The value of `builds[codename][buildname]`: the date and the path list. */
  datatype Build = Build(name: string, date: int, paths: seq<string>)

  /** One entry of the outer dictionary: a codename and its builds. */
  datatype Cohort = Cohort(codename: string, builds: seq<Build>)

  // ----- dictionary lookups -----

  /** Position of the build named `n` in `bs`, or `|bs|` when there is none. */
  function FindBuild(bs: seq<Build>, n: string): (j: nat)
    ensures j <= |bs|
    ensures j < |bs| ==> bs[j].name == n
    ensures forall i :: 0 <= i < j ==> bs[i].name != n
  {
    if bs == [] then 0 else if bs[0].name == n then 0 else 1 + FindBuild(bs[1..], n)
  }

  /** Position of the cohort of codename `c` in `g`, or `|g|` when there is none. */
  function FindCohort(g: seq<Cohort>, c: string): (i: nat)
    ensures i <= |g|
    ensures i < |g| ==> g[i].codename == c
    ensures forall j :: 0 <= j < i ==> g[j].codename != c
  {
    if g == [] then 0 else if g[0].codename == c then 0 else 1 + FindCohort(g[1..], c)
  }

  /** The position a lookup finds is the only one its contract allows. */
  lemma FindBuildUnique(bs: seq<Build>, n: string, j: nat)
    requires j <= |bs| && (j < |bs| ==> bs[j].name == n)
    requires forall i :: 0 <= i < j ==> bs[i].name != n
    ensures FindBuild(bs, n) == j
  {
  }

  lemma FindCohortUnique(g: seq<Cohort>, c: string, i: nat)
    requires i <= |g| && (i < |g| ==> g[i].codename == c)
    requires forall j :: 0 <= j < i ==> g[j].codename != c
    ensures FindCohort(g, c) == i
  {
  }

  /** `builds[codename][buildname]`, or `None` where a key is missing. */
  function Lookup(g: seq<Cohort>, c: string, n: string): Option<Build> {
    var i := FindCohort(g, c);
    if i == |g| then None
    else
      var j := FindBuild(g[i].builds, n);
      if j == |g[i].builds| then None else Some(g[i].builds[j])
  }

  // ----- the grouping loop -----

  function NewBuild(e: Entry): Build {
    Build(e.name, e.date, [e.path])
  }

  /** The inner update: a new build name gets `(date, [path])`, a known one has
      `path` appended to its list (its date is left as it was). */
  function AddToBuilds(bs: seq<Build>, e: Entry): (r: seq<Build>)
    ensures |r| == |bs| || r == bs + [NewBuild(e)]
  {
    var j := FindBuild(bs, e.name);
    if j == |bs| then bs + [NewBuild(e)] else bs[j := bs[j].(paths := bs[j].paths + [e.path])]
  }

  /** One turn of the grouping loop (src/clean_up.py lines 43-48). */
  function AddEntry(g: seq<Cohort>, e: Entry): (r: seq<Cohort>)
    ensures |r| == |g| || r == g + [Cohort(e.codename, [NewBuild(e)])]
  {
    var i := FindCohort(g, e.codename);
    if i == |g| then g + [Cohort(e.codename, [NewBuild(e)])]
    else g[i := g[i].(builds := AddToBuilds(g[i].builds, e))]
  }

  /** The dictionary after the whole grouping loop over `es`. */
  function Group(es: seq<Entry>): seq<Cohort> {
    if es == [] then [] else AddEntry(Group(es[..|es| - 1]), es[|es| - 1])
  }

  // ----- what the grouping computes -----

  /** The entries of codename `c` and build name `n`, in order. */
  function Matching(es: seq<Entry>, c: string, n: string): (r: seq<Entry>)
    ensures forall i :: 0 <= i < |r| ==> r[i] in es && r[i].codename == c && r[i].name == n
  {
    if es == [] then []
    else
      var last := es[|es| - 1];
      Matching(es[..|es| - 1], c, n) + (if last.codename == c && last.name == n then [last] else [])
  }

  function Paths(es: seq<Entry>): (r: seq<string>)
    ensures |r| == |es|
    ensures forall i :: 0 <= i < |es| ==> r[i] == es[i].path
  {
    if es == [] then [] else Paths(es[..|es| - 1]) + [es[|es| - 1].path]
  }

  /** A lookup after one more entry. */
  lemma LookupAdd(g: seq<Cohort>, e: Entry, c: string, n: string)
    ensures Lookup(AddEntry(g, e), c, n) ==
      if c == e.codename && n == e.name then
        match Lookup(g, c, n)
        case None => Some(NewBuild(e))
        case Some(b) => Some(b.(paths := b.paths + [e.path]))
      else Lookup(g, c, n)
  {
    var i := FindCohort(g, e.codename);
    var r := AddEntry(g, e);
    if i == |g| {
      if c == e.codename {
        FindCohortUnique(r, c, |g|);
      } else {
        var k := FindCohort(g, c);
        FindCohortUnique(r, c, if k < |g| then k else |r|);
      }
    } else {
      FindCohortUnique(r, c, FindCohort(g, c));
      if c == e.codename {
        var bs := g[i].builds;
        var j := FindBuild(bs, e.name);
        var bs' := AddToBuilds(bs, e);
        assert r[i].builds == bs';
        if j == |bs| {
          if n == e.name {
            FindBuildUnique(bs', n, |bs|);
          } else {
            var k := FindBuild(bs, n);
            FindBuildUnique(bs', n, if k < |bs| then k else |bs'|);
          }
        } else {
          FindBuildUnique(bs', n, FindBuild(bs, n));
        }
      }
    }
  }

  /**
   * What the grouping loop builds: the path list of `builds[c][n]` holds the
   * paths of exactly the entries of codename `c` and build name `n`, in their
   * order and each once, and its date is the first such entry's; a key pair
   * without entries is absent. The version token takes no part: entries of one
   * codename share one group whatever their versions.
   */
  lemma {:induction false} GroupLookup(es: seq<Entry>, c: string, n: string)
    ensures var m := Matching(es, c, n);
      Lookup(Group(es), c, n) == if m == [] then None else Some(Build(n, m[0].date, Paths(m)))
  {
    if es != [] {
      var es', e := es[..|es| - 1], es[|es| - 1];
      GroupLookup(es', c, n);
      LookupAdd(Group(es'), e, c, n);
      assert Group(es) == AddEntry(Group(es'), e);
      if c == e.codename && n == e.name {
        MatchingGrows(es, c, n);
      } else {
        assert Matching(es, c, n) == Matching(es', c, n);
      }
    }
  }

  /** One more entry of the looked-up keys: it starts the build or extends its
      path list. */
  lemma MatchingGrows(es: seq<Entry>, c: string, n: string)
    requires es != [] && es[|es| - 1].codename == c && es[|es| - 1].name == n
    ensures var m', m, e := Matching(es[..|es| - 1], c, n), Matching(es, c, n), es[|es| - 1];
      && (if m == [] then None else Some(Build(n, m[0].date, Paths(m)))) ==
         (if m' == [] then Some(NewBuild(e))
          else Some(Build(n, m'[0].date, Paths(m') + [e.path])))
  {
    var m', e := Matching(es[..|es| - 1], c, n), es[|es| - 1];
    var m := Matching(es, c, n);
    assert m == m' + [e];
    assert m[..|m'|] == m';
    assert Paths(m) == Paths(m') + [e.path];
    if m' != [] {
      assert m[0] == m'[0];
    } else {
      assert m == [e] && Paths(m) == [e.path];
    }
  }

  // ----- shape of the dictionaries -----

  predicate DistinctNames(bs: seq<Build>) {
    forall i, j :: 0 <= i < j < |bs| ==> bs[i].name != bs[j].name
  }

  /** Keys are distinct at both levels and every path list is non-empty. */
  predicate Valid(g: seq<Cohort>) {
    && (forall i, j :: 0 <= i < j < |g| ==> g[i].codename != g[j].codename)
    && (forall i :: 0 <= i < |g| ==> DistinctNames(g[i].builds) && |g[i].builds| > 0)
    && (forall i, j :: 0 <= i < |g| && 0 <= j < |g[i].builds| ==> |g[i].builds[j].paths| > 0)
  }

  lemma AddToBuildsDistinct(bs: seq<Build>, e: Entry)
    requires DistinctNames(bs)
    requires forall j :: 0 <= j < |bs| ==> |bs[j].paths| > 0
    ensures var r := AddToBuilds(bs, e);
      && DistinctNames(r) && |r| > 0
      && (forall j :: 0 <= j < |r| ==> |r[j].paths| > 0)
  {
  }

  /** One turn of the grouping loop keeps the dictionaries well-shaped. */
  lemma AddEntryValid(g: seq<Cohort>, e: Entry)
    requires Valid(g)
    ensures Valid(AddEntry(g, e))
  {
    var i := FindCohort(g, e.codename);
    if i < |g| {
      AddToBuildsDistinct(g[i].builds, e);
    }
  }

  lemma {:induction false} GroupValid(es: seq<Entry>)
    ensures Valid(Group(es))
  {
    if es != [] {
      GroupValid(es[..|es| - 1]);
      AddEntryValid(Group(es[..|es| - 1]), es[|es| - 1]);
    }
  }

  // ----- every selected file in exactly one build -----

  /** The paths of a list of builds, build after build. */
  function BuildPaths(bs: seq<Build>): seq<string> {
    if bs == [] then [] else BuildPaths(bs[..|bs| - 1]) + bs[|bs| - 1].paths
  }

  /** The paths of all builds of all codenames. */
  function AllPaths(g: seq<Cohort>): seq<string> {
    if g == [] then [] else AllPaths(g[..|g| - 1]) + BuildPaths(g[|g| - 1].builds)
  }

  lemma {:induction false} BuildPathsAppend(a: seq<Build>, b: seq<Build>)
    ensures BuildPaths(a + b) == BuildPaths(a) + BuildPaths(b)
    decreases |b|
  {
    if b == [] {
      assert a + b == a;
    } else {
      var b' := b[..|b| - 1];
      assert (a + b)[..|a + b| - 1] == a + b';
      BuildPathsAppend(a, b');
    }
  }

  lemma {:induction false} AllPathsAppend(a: seq<Cohort>, b: seq<Cohort>)
    ensures AllPaths(a + b) == AllPaths(a) + AllPaths(b)
    decreases |b|
  {
    if b == [] {
      assert a + b == a;
    } else {
      var b' := b[..|b| - 1];
      assert (a + b)[..|a + b| - 1] == a + b';
      AllPathsAppend(a, b');
    }
  }

  /** Replacing one build changes the paths by exactly that build's paths. */
  lemma BuildPathsUpdate(bs: seq<Build>, j: nat, x: Build)
    requires j < |bs|
    ensures multiset(BuildPaths(bs[j := x])) + multiset(bs[j].paths)
         == multiset(BuildPaths(bs)) + multiset(x.paths)
  {
    assert bs == bs[..j] + [bs[j]] + bs[j + 1..];
    assert bs[j := x] == bs[..j] + [x] + bs[j + 1..];
    BuildPathsAppend(bs[..j] + [bs[j]], bs[j + 1..]);
    BuildPathsAppend(bs[..j] + [x], bs[j + 1..]);
    BuildPathsAppend(bs[..j], [bs[j]]);
    BuildPathsAppend(bs[..j], [x]);
    assert BuildPaths([x]) == x.paths by { assert [x][..0] == []; }
    assert BuildPaths([bs[j]]) == bs[j].paths by { assert [bs[j]][..0] == []; }
  }

  lemma AllPathsUpdate(g: seq<Cohort>, i: nat, x: Cohort)
    requires i < |g|
    ensures multiset(AllPaths(g[i := x])) + multiset(BuildPaths(g[i].builds))
         == multiset(AllPaths(g)) + multiset(BuildPaths(x.builds))
  {
    assert g == g[..i] + [g[i]] + g[i + 1..];
    assert g[i := x] == g[..i] + [x] + g[i + 1..];
    AllPathsAppend(g[..i] + [g[i]], g[i + 1..]);
    AllPathsAppend(g[..i] + [x], g[i + 1..]);
    AllPathsAppend(g[..i], [g[i]]);
    AllPathsAppend(g[..i], [x]);
    assert AllPaths([x]) == BuildPaths(x.builds) by { assert [x][..0] == []; }
    assert AllPaths([g[i]]) == BuildPaths(g[i].builds) by { assert [g[i]][..0] == []; }
  }

  lemma Cancel<T>(a: multiset<T>, b: multiset<T>, c: multiset<T>, d: multiset<T>)
    requires a + b == c + (b + d)
    ensures a == c + d
  {
    assert forall x :: a[x] + b[x] == c[x] + b[x] + d[x] by {
      forall x ensures a[x] + b[x] == c[x] + b[x] + d[x] {
        assert (a + b)[x] == (c + (b + d))[x];
      }
    }
  }

  lemma AddBuildPaths(bs: seq<Build>, e: Entry)
    ensures multiset(BuildPaths(AddToBuilds(bs, e))) == multiset(BuildPaths(bs)) + multiset{e.path}
  {
    var j := FindBuild(bs, e.name);
    if j == |bs| {
      assert (bs + [NewBuild(e)])[..|bs|] == bs;
      assert BuildPaths(bs + [NewBuild(e)]) == BuildPaths(bs) + [e.path];
    } else {
      var x := bs[j].(paths := bs[j].paths + [e.path]);
      BuildPathsUpdate(bs, j, x);
      Cancel(multiset(BuildPaths(bs[j := x])), multiset(bs[j].paths), multiset(BuildPaths(bs)), multiset{e.path});
    }
  }

  lemma AddEntryPaths(g: seq<Cohort>, e: Entry)
    ensures multiset(AllPaths(AddEntry(g, e))) == multiset(AllPaths(g)) + multiset{e.path}
  {
    var i := FindCohort(g, e.codename);
    if i == |g| {
      var x := Cohort(e.codename, [NewBuild(e)]);
      assert (g + [x])[..|g|] == g;
      assert BuildPaths([NewBuild(e)]) == [e.path] by { assert [NewBuild(e)][..0] == []; }
      assert AllPaths(g + [x]) == AllPaths(g) + [e.path];
    } else {
      var x := g[i].(builds := AddToBuilds(g[i].builds, e));
      assert AddEntry(g, e) == g[i := x];
      AddBuildPaths(g[i].builds, e);
      AllPathsUpdate(g, i, x);
      Cancel(multiset(AllPaths(g[i := x])), multiset(BuildPaths(g[i].builds)), multiset(AllPaths(g)), multiset{e.path});
    }
  }

  /** The grouping loses no file and counts none twice: the path lists of all
      builds together hold exactly the selected paths. */
  lemma {:induction false} GroupPaths(es: seq<Entry>)
    ensures multiset(AllPaths(Group(es))) == multiset(Paths(es))
  {
    if es != [] {
      var es' := es[..|es| - 1];
      GroupPaths(es');
      AddEntryPaths(Group(es'), es[|es| - 1]);
      assert Paths(es) == Paths(es') + [es[|es| - 1].path];
    }
  }

  // ----- the stable sort by date -----

  predicate SortedByDate(bs: seq<Build>) {
    forall i, j :: 0 <= i < j < |bs| ==> bs[i].date <= bs[j].date
  }

  /** Insertion of `x` behind every build of the same or an earlier date. */
  function Insert(s: seq<Build>, x: Build): (r: seq<Build>)
    ensures |r| == |s| + 1
    ensures multiset(r) == multiset(s) + multiset{x}
    ensures forall i :: 0 <= i < |r| ==> r[i] == x || r[i] in s
  {
    if s == [] || s[|s| - 1].date <= x.date then s + [x]
    else
      var s', last := s[..|s| - 1], s[|s| - 1];
      assert s == s' + [last];
      Insert(s', x) + [last]
  }

  lemma {:induction false} InsertSorted(s: seq<Build>, x: Build)
    requires SortedByDate(s)
    ensures SortedByDate(Insert(s, x))
    decreases |s|
  {
    if !(s == [] || s[|s| - 1].date <= x.date) {
      var s', last := s[..|s| - 1], s[|s| - 1];
      var r' := Insert(s', x);
      InsertSorted(s', x);
      forall i | 0 <= i < |r'| ensures r'[i].date <= last.date {
        if r'[i] != x {
          var t :| 0 <= t < |s'| && s'[t] == r'[i];
        }
      }
    }
  }

  /** `build_list.sort(key=lambda b: b[0])`. */
  function SortByDate(bs: seq<Build>): (r: seq<Build>)
    ensures SortedByDate(r)
    ensures multiset(r) == multiset(bs)
  {
    if bs == [] then []
    else
      assert bs == bs[..|bs| - 1] + [bs[|bs| - 1]];
      InsertSorted(SortByDate(bs[..|bs| - 1]), bs[|bs| - 1]);
      Insert(SortByDate(bs[..|bs| - 1]), bs[|bs| - 1])
  }

  /** The builds of date `d`, in order. */
  function WithDate(bs: seq<Build>, d: int): seq<Build> {
    if bs == [] then []
    else WithDate(bs[..|bs| - 1], d) + (if bs[|bs| - 1].date == d then [bs[|bs| - 1]] else [])
  }

  lemma WithDateSnoc(s: seq<Build>, x: Build, d: int)
    ensures WithDate(s + [x], d) == WithDate(s, d) + (if x.date == d then [x] else [])
  {
    assert (s + [x])[..|s|] == s;
  }

  lemma {:induction false} InsertWithDate(s: seq<Build>, x: Build, d: int)
    requires SortedByDate(s)
    ensures WithDate(Insert(s, x), d) == WithDate(s, d) + (if x.date == d then [x] else [])
    decreases |s|
  {
    if s == [] || s[|s| - 1].date <= x.date {
      assert Insert(s, x) == s + [x];
      WithDateSnoc(s, x, d);
    } else {
      var s', last := s[..|s| - 1], s[|s| - 1];
      var r' := Insert(s', x);
      InsertWithDate(s', x, d);
      assert Insert(s, x) == r' + [last];
      WithDateSnoc(r', last, d);
      var tail := if last.date == d then [last] else [];
      assert WithDate(s, d) == WithDate(s', d) + tail;
      if x.date == d {
        assert tail == [];
        assert WithDate(Insert(s, x), d) == WithDate(s', d) + [x];
      } else {
        assert WithDate(Insert(s, x), d) == WithDate(s', d) + tail;
      }
    }
  }

  /** The sort is stable: builds of equal date keep their relative order. */
  lemma {:induction false} SortStable(bs: seq<Build>, d: int)
    ensures WithDate(SortByDate(bs), d) == WithDate(bs, d)
  {
    if bs != [] {
      var bs' := bs[..|bs| - 1];
      SortStable(bs', d);
      InsertWithDate(SortByDate(bs'), bs[|bs| - 1], d);
    }
  }

  lemma {:induction false} InsertPaths(s: seq<Build>, x: Build)
    ensures multiset(BuildPaths(Insert(s, x))) == multiset(BuildPaths(s)) + multiset(x.paths)
    decreases |s|
  {
    if s == [] || s[|s| - 1].date <= x.date {
      assert Insert(s, x) == s + [x];
      assert (s + [x])[..|s|] == s;
    } else {
      var s', last := s[..|s| - 1], s[|s| - 1];
      var r' := Insert(s', x);
      InsertPaths(s', x);
      assert Insert(s, x) == r' + [last];
      assert (r' + [last])[..|r'|] == r';
    }
  }

  /** Sorting moves builds but keeps every path. */
  lemma {:induction false} SortPaths(bs: seq<Build>)
    ensures multiset(BuildPaths(SortByDate(bs))) == multiset(BuildPaths(bs))
  {
    if bs != [] {
      var bs' := bs[..|bs| - 1];
      SortPaths(bs');
      InsertPaths(SortByDate(bs'), bs[|bs| - 1]);
    }
  }

  // ----- eviction -----

  function Min(a: int, b: int): int { if a <= b then a else b }

  function Max(a: int, b: int): int { if a >= b then a else b }

  /** How many builds `build_list[0:n - k]` takes under `if n > k`; the slice
      end `n - k` is cut down to `n` when `k` is negative. */
  function EvictCount(n: nat, k: int): (c: nat)
    ensures c <= n
    ensures n - c == Min(n, Max(k, 0))
  {
    if n > k then (if n - k <= n then n - k else n) else 0
  }

  /** The builds deleted from a date-sorted list: its oldest ones, leaving
      `min(n, max(k, 0))`. */
  function Evicted(sorted: seq<Build>, k: int): (r: seq<Build>)
    ensures |r| <= |sorted| && r == sorted[..|r|]
    ensures |sorted| - |r| == Min(|sorted|, Max(k, 0))
  {
    sorted[..EvictCount(|sorted|, k)]
  }

  /** The builds that survive: the newest `min(n, max(k, 0))`. */
  function Kept(sorted: seq<Build>, k: int): (r: seq<Build>)
    ensures sorted == Evicted(sorted, k) + r
    ensures |r| == Min(|sorted|, Max(k, 0))
  {
    sorted[EvictCount(|sorted|, k)..]
  }

  /** No surviving build is older than a deleted one. */
  lemma OldestFirst(sorted: seq<Build>, k: int)
    requires SortedByDate(sorted)
    ensures var ev, kept := Evicted(sorted, k), Kept(sorted, k);
      forall i, j :: 0 <= i < |ev| && 0 <= j < |kept| ==> ev[i].date <= kept[j].date
  {
    var ev, kept := Evicted(sorted, k), Kept(sorted, k);
    forall i, j | 0 <= i < |ev| && 0 <= j < |kept| ensures ev[i].date <= kept[j].date {
      assert ev[i] == sorted[i] && kept[j] == sorted[|ev| + j];
    }
  }

  /** A group of at most `k` builds loses none. */
  lemma SmallGroupUntouched(sorted: seq<Build>, k: int)
    requires |sorted| <= k
    ensures Evicted(sorted, k) == [] && Kept(sorted, k) == sorted
  {
  }

  /** With `k <= 0` every build of the group is deleted. */
  lemma KeepNone(sorted: seq<Build>, k: int)
    requires k <= 0
    ensures Evicted(sorted, k) == sorted && Kept(sorted, k) == []
  {
  }

  /** The files deleted for one codename, in the order `remove` meets them. */
  function CohortDoomed(co: Cohort, k: int): seq<string> {
    BuildPaths(Evicted(SortByDate(co.builds), k))
  }

  /** The files deleted by the eviction loop, codename after codename. */
  function Doomed(g: seq<Cohort>, k: int): seq<string> {
    if g == [] then [] else Doomed(g[..|g| - 1], k) + CohortDoomed(g[|g| - 1], k)
  }

  function Names(bs: seq<Build>): (r: seq<string>)
    ensures |r| == |bs| && forall i :: 0 <= i < |bs| ==> r[i] == bs[i].name
  {
    if bs == [] then [] else Names(bs[..|bs| - 1]) + [bs[|bs| - 1].name]
  }

  /** The build `n` of codename `c` is among the builds the loop deletes. */
  predicate Evicts(g: seq<Cohort>, k: int, c: string, n: string) {
    var i := FindCohort(g, c);
    i < |g| && n in Names(Evicted(SortByDate(g[i].builds), k))
  }

  // ----- what is deleted -----

  lemma CohortDoomedWithin(co: Cohort, k: int)
    ensures multiset(CohortDoomed(co, k)) <= multiset(BuildPaths(co.builds))
  {
    var sorted := SortByDate(co.builds);
    var ev := Evicted(sorted, k);
    var rest := Kept(sorted, k);
    SortPaths(co.builds);
    BuildPathsAppend(ev, rest);
    assert multiset(BuildPaths(sorted)) == multiset(BuildPaths(ev)) + multiset(BuildPaths(rest));
  }

  /** Only grouped paths are deleted, each at most as often as it was grouped. */
  lemma {:induction false} DoomedWithin(g: seq<Cohort>, k: int)
    ensures multiset(Doomed(g, k)) <= multiset(AllPaths(g))
  {
    if g != [] {
      DoomedWithin(g[..|g| - 1], k);
      CohortDoomedWithin(g[|g| - 1], k);
    }
  }

  lemma {:induction false} BuildPathsHas(bs: seq<Build>, t: nat, p: string)
    requires t < |bs| && p in bs[t].paths
    ensures p in BuildPaths(bs)
  {
    if t < |bs| - 1 {
      BuildPathsHas(bs[..|bs| - 1], t, p);
    }
  }

  lemma {:induction false} BuildPathsWitness(bs: seq<Build>, p: string) returns (t: nat)
    requires p in BuildPaths(bs)
    ensures t < |bs| && p in bs[t].paths
  {
    if p in bs[|bs| - 1].paths {
      t := |bs| - 1;
    } else {
      t := BuildPathsWitness(bs[..|bs| - 1], p);
    }
  }

  lemma {:induction false} DoomedHas(g: seq<Cohort>, k: int, i: nat, p: string)
    requires i < |g| && p in CohortDoomed(g[i], k)
    ensures p in Doomed(g, k)
  {
    if i < |g| - 1 {
      DoomedHas(g[..|g| - 1], k, i, p);
    }
  }

  lemma {:induction false} DoomedWitness(g: seq<Cohort>, k: int, p: string) returns (i: nat)
    requires p in Doomed(g, k)
    ensures i < |g| && p in CohortDoomed(g[i], k)
  {
    if p in CohortDoomed(g[|g| - 1], k) {
      i := |g| - 1;
    } else {
      i := DoomedWitness(g[..|g| - 1], k, p);
    }
  }

  lemma MatchingHas(es: seq<Entry>, e: Entry)
    requires e in es
    ensures e in Matching(es, e.codename, e.name)
  {
    var t :| 0 <= t < |es| && es[t] == e;
    MatchingAt(es, t);
  }

  lemma {:induction false} MatchingAt(es: seq<Entry>, t: nat)
    requires t < |es|
    ensures es[t] in Matching(es, es[t].codename, es[t].name)
  {
    if t < |es| - 1 {
      MatchingAt(es[..|es| - 1], t);
    }
  }

  /** In a valid dictionary each build is what a lookup of its keys finds. */
  lemma LookupValid(g: seq<Cohort>, i: nat, j: nat)
    requires Valid(g) && i < |g| && j < |g[i].builds|
    ensures Lookup(g, g[i].codename, g[i].builds[j].name) == Some(g[i].builds[j])
  {
    FindCohortUnique(g, g[i].codename, i);
    FindBuildUnique(g[i].builds, g[i].builds[j].name, j);
  }

  predicate DistinctPaths(es: seq<Entry>) {
    forall i, j :: 0 <= i < j < |es| ==> es[i].path != es[j].path
  }

  /** A file whose build is deleted is deleted. */
  lemma EvictedEntryDoomed(es: seq<Entry>, k: int, e: Entry)
    requires e in es && Evicts(Group(es), k, e.codename, e.name)
    ensures e.path in Doomed(Group(es), k)
  {
    var g := Group(es);
    GroupValid(es);
    var i := FindCohort(g, e.codename);
    var sorted := SortByDate(g[i].builds);
    var ev := Evicted(sorted, k);
    var t :| 0 <= t < |ev| && Names(ev)[t] == e.name;
    var b := ev[t];
    assert b in multiset(sorted);
    var j :| 0 <= j < |g[i].builds| && g[i].builds[j] == b;
    LookupValid(g, i, j);
    GroupLookup(es, e.codename, e.name);
    MatchingHas(es, e);
    var m := Matching(es, e.codename, e.name);
    var u :| 0 <= u < |m| && m[u] == e;
    assert e.path == Paths(m)[u];
    BuildPathsHas(ev, t, e.path);
    DoomedHas(g, k, i, e.path);
  }

  /** A grouped path belongs to the entry with that path, so the build holding
      it has that entry's keys. */
  lemma PathOwner(es: seq<Entry>, i: nat, j: nat, e: Entry)
    requires DistinctPaths(es) && e in es
    requires var g := Group(es); i < |g| && j < |g[i].builds| && e.path in g[i].builds[j].paths
    ensures Group(es)[i].codename == e.codename && Group(es)[i].builds[j].name == e.name
  {
    var g := Group(es);
    GroupValid(es);
    var b := g[i].builds[j];
    LookupValid(g, i, j);
    GroupLookup(es, g[i].codename, b.name);
    var m := Matching(es, g[i].codename, b.name);
    var u :| 0 <= u < |b.paths| && b.paths[u] == e.path;
    var e' := m[u];
    assert e'.path == e.path;
    var x :| 0 <= x < |es| && es[x] == e';
    var y :| 0 <= y < |es| && es[y] == e;
    assert x == y;
  }

  /** A deleted path lies in an evicted build of some codename. */
  lemma DoomedBuild(g: seq<Cohort>, k: int, p: string) returns (i: nat, j: nat)
    requires p in Doomed(g, k)
    ensures i < |g| && j < |g[i].builds| && p in g[i].builds[j].paths
    ensures g[i].builds[j].name in Names(Evicted(SortByDate(g[i].builds), k))
  {
    i := DoomedWitness(g, k, p);
    var sorted := SortByDate(g[i].builds);
    var ev := Evicted(sorted, k);
    var t := BuildPathsWitness(ev, p);
    assert ev[t] in multiset(g[i].builds);
    j :| 0 <= j < |g[i].builds| && g[i].builds[j] == ev[t];
    assert Names(ev)[t] == ev[t].name;
  }

  /** A deleted file is a file whose build is deleted. */
  lemma DoomedEntryEvicted(es: seq<Entry>, k: int, e: Entry)
    requires DistinctPaths(es) && e in es && e.path in Doomed(Group(es), k)
    ensures Evicts(Group(es), k, e.codename, e.name)
  {
    var g := Group(es);
    GroupValid(es);
    var i, j := DoomedBuild(g, k, e.path);
    PathOwner(es, i, j, e);
    FindCohortUnique(g, e.codename, i);
  }

  /**
   * Whole builds go: a selected file is deleted exactly when its build is among
   * the oldest builds of its codename (given distinct paths, as a directory walk
   * lists them).
   */
  lemma DoomedEntries(es: seq<Entry>, k: int, e: Entry)
    requires DistinctPaths(es) && e in es
    ensures e.path in Doomed(Group(es), k) <==> Evicts(Group(es), k, e.codename, e.name)
  {
    if e.path in Doomed(Group(es), k) {
      DoomedEntryEvicted(es, k, e);
    }
    if Evicts(Group(es), k, e.codename, e.name) {
      EvictedEntryDoomed(es, k, e);
    }
  }

  // ----- a second run -----

  /** The build of an entry: its codename's group and its name's build there. */
  lemma BuildOf(es: seq<Entry>, e: Entry) returns (i: nat, j: nat)
    requires e in es
    ensures var g := Group(es);
      i == FindCohort(g, e.codename) && i < |g| && j < |g[i].builds| && g[i].builds[j].name == e.name
  {
    var g := Group(es);
    MatchingHas(es, e);
    GroupLookup(es, e.codename, e.name);
    i := FindCohort(g, e.codename);
    j := FindBuild(g[i].builds, e.name);
  }

  lemma NameIn(bs: seq<Build>, t: nat)
    requires t < |bs|
    ensures bs[t].name in Names(bs)
  {
    assert Names(bs)[t] == bs[t].name;
  }

  /** With `k <= 0` the build of every entry is deleted. */
  lemma KeepNoneEvicts(es: seq<Entry>, k: int, e: Entry)
    requires k <= 0 && e in es
    ensures Evicts(Group(es), k, e.codename, e.name)
  {
    var g := Group(es);
    var i, j := BuildOf(es, e);
    var sorted := SortByDate(g[i].builds);
    KeepNone(sorted, k);
    assert g[i].builds[j] in multiset(sorted);
    var t :| 0 <= t < |sorted| && sorted[t] == g[i].builds[j];
    NameIn(sorted, t);
  }

  /** An entry whose build is not deleted names one of the kept builds of its
      codename. */
  lemma SurvivorKept(es: seq<Entry>, k: int, e: Entry) returns (i: nat)
    requires e in es && !Evicts(Group(es), k, e.codename, e.name)
    ensures var g := Group(es);
      i == FindCohort(g, e.codename) && i < |g| && e.name in Names(Kept(SortByDate(g[i].builds), k))
  {
    var g := Group(es);
    var j;
    i, j := BuildOf(es, e);
    var sorted := SortByDate(g[i].builds);
    var ev, rest := Evicted(sorted, k), Kept(sorted, k);
    assert g[i].builds[j] in multiset(sorted);
    var t :| 0 <= t < |sorted| && sorted[t] == g[i].builds[j];
    assert t >= |ev|;
    assert rest[t - |ev|] == sorted[t];
    NameIn(rest, t - |ev|);
  }

  /** A sequence without repeats that lies within `b` is no longer than `b`. */
  lemma {:induction false} DistinctWithin(a: seq<string>, b: seq<string>)
    requires forall i, j :: 0 <= i < j < |a| ==> a[i] != a[j]
    requires forall x :: x in a ==> x in b
    ensures |a| <= |b|
  {
    if a != [] {
      var x := a[|a| - 1];
      var a' := a[..|a| - 1];
      assert x in a;
      var t :| 0 <= t < |b| && b[t] == x;
      var b' := b[..t] + b[t + 1..];
      forall y | y in a' ensures y in b' {
        var u :| 0 <= u < |a'| && a'[u] == y;
        assert a[u] == y && y != x;
        assert y in a;
        var v :| 0 <= v < |b| && b[v] == y;
        if v < t { assert b'[v] == y; } else { assert b'[v - 1] == y; }
      }
      DistinctWithin(a', b');
    }
  }

  /** Each group of a regrouping of surviving entries has at most `max(k, 0)`
      builds. */
  lemma SurvivorGroupSmall(es: seq<Entry>, sub: seq<Entry>, k: int, i': nat)
    requires forall e :: e in sub ==> e in es && !Evicts(Group(es), k, e.codename, e.name)
    requires i' < |Group(sub)|
    ensures |Group(sub)[i'].builds| <= Max(k, 0)
  {
    var g, g' := Group(es), Group(sub);
    GroupValid(sub);
    var c := g'[i'].codename;
    var bs' := g'[i'].builds;
    var names := Names(bs');
    var e0 := Matching(sub, c, bs'[0].name)[0] by {
      LookupValid(g', i', 0);
      GroupLookup(sub, c, bs'[0].name);
    }
    var i := SurvivorKept(es, k, e0);
    var rest := Kept(SortByDate(g[i].builds), k);
    forall n | n in names ensures n in Names(rest) {
      var t :| 0 <= t < |bs'| && bs'[t].name == n;
      LookupValid(g', i', t);
      GroupLookup(sub, c, n);
      var e := Matching(sub, c, n)[0];
      var i2 := SurvivorKept(es, k, e);
    }
    DistinctWithin(names, Names(rest));
  }

  lemma {:induction false} SmallGroupsIdle(g: seq<Cohort>, k: int)
    requires forall i :: 0 <= i < |g| ==> |g[i].builds| <= Max(k, 0)
    ensures Doomed(g, k) == []
  {
    if g != [] {
      SmallGroupsIdle(g[..|g| - 1], k);
      var bs := g[|g| - 1].builds;
      var sorted := SortByDate(bs);
      assert |sorted| == |multiset(sorted)| == |bs|;
      assert Evicted(sorted, k) == [];
    }
  }

  /** A second run deletes nothing: regrouping entries whose builds survived
      leaves at most `max(k, 0)` builds per codename, so no build is evicted. */
  lemma SecondRunIdle(es: seq<Entry>, sub: seq<Entry>, k: int)
    requires forall e :: e in sub ==> e in es && !Evicts(Group(es), k, e.codename, e.name)
    ensures Doomed(Group(sub), k) == []
  {
    forall i' | 0 <= i' < |Group(sub)| ensures |Group(sub)[i'].builds| <= Max(k, 0) {
      SurvivorGroupSmall(es, sub, k, i');
    }
    SmallGroupsIdle(Group(sub), k);
  }
}
