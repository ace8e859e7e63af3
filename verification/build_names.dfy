/**
 * Build names of the retention cleaner: the two regular expressions of
 * `clean_path`, the leftmost `search` of the build-name pattern over a path,
 * `os.path.basename`, and `datetime.strptime(token, "%Y%m%d")`.
 *
 *   build pattern  lineage-[\d,.]+-[\d]+-[\w]+-[\w]+
 *   file pattern   lineage-[\d,.]+-[\d]+-[\w]+-[\w]+[.,\w]+
 *
 * None of the character classes `[\d,.]`, `\d`, `\w` holds `-`, so each greedy
 * `+` that is followed by `-` has exactly one way to succeed: take the whole
 * run and find `-` right after it. The recogniser below therefore has no
 * backtracking except for the file pattern's tail, where `[\w]+[.,\w]+` needs a
 * word character followed by one more character of `[.,\w]`.
 */
module BuildNames {
  import opened Wrappers
  import opened Text

  /** The character classes of the two patterns. */
  datatype Class = VersionChars | Digits | WordChars

  predicate In(c: char, k: Class) {
    match k
    case VersionChars => IsDigit(c) || c == ',' || c == '.'
    case Digits => IsDigit(c)
    case WordChars => IsWord(c)
  }

  predicate AllIn(s: string, k: Class) { forall i :: 0 <= i < |s| ==> In(s[i], k) }

  /** End of the run of class `k` that starts at `i` (how far a greedy `+` runs). */
  function RunEnd(s: string, i: nat, k: Class): (e: nat)
    requires i <= |s|
    decreases |s| - i
    ensures i <= e <= |s|
    ensures forall j :: i <= j < e ==> In(s[j], k)
    ensures e < |s| ==> !In(s[e], k)
  {
    if i == |s| || !In(s[i], k) then i else RunEnd(s, i + 1, k)
  }

  lemma {:induction false} RunEndAt(s: string, i: nat, e: nat, k: Class)
    requires i <= e <= |s|
    requires forall j :: i <= j < e ==> In(s[j], k)
    requires e == |s| || !In(s[e], k)
    ensures RunEnd(s, i, k) == e
    decreases e - i
  {
    if i < e {
      RunEndAt(s, i + 1, e, k);
    }
  }

  /** `<class>+-` at `i`: the index just after the `-`, if the field is there. */
  function Field(s: string, i: nat, k: Class): (r: Option<nat>)
    requires i <= |s|
    ensures r.Some? ==> i + 2 <= r.value <= |s| && s[r.value - 1] == '-'
    ensures r.Some? ==> forall j :: i <= j < r.value - 1 ==> In(s[j], k)
  {
    var e := RunEnd(s, i, k);
    if i < e < |s| && s[e] == '-' then Some(e + 1) else None
  }

  const Lineage: string := "lineage-"

  /** The parts of a build name: `lineage-<version>-<date>-<kind>-<codename>`. */
  datatype BuildId = BuildId(version: string, date: string, kind: string, codename: string)

  predicate WellFormed(id: BuildId) {
    && |id.version| > 0 && AllIn(id.version, VersionChars)
    && |id.date| > 0 && AllIn(id.date, Digits)
    && |id.kind| > 0 && AllIn(id.kind, WordChars)
    && |id.codename| > 0 && AllIn(id.codename, WordChars)
  }

  /** The text of a build name, as `group(0)` returns it. */
  function Name(id: BuildId): string {
    Lineage + id.version + "-" + id.date + "-" + id.kind + "-" + id.codename
  }

  /** Where the fields of `lineage-V-D-T-` start in a string that begins with them. */
  datatype Marks = Marks(date: nat, kind: nat, codename: nat)

  /** The common head `lineage-[\d,.]+-[\d]+-[\w]+-` of both patterns. */
  function Head(s: string): (r: Option<Marks>)
    ensures r.Some? ==> 8 + 2 <= r.value.date && r.value.date + 2 <= r.value.kind
                        && r.value.kind + 2 <= r.value.codename <= |s|
  {
    if !StartsWith(s, Lineage) then None
    else
      var d :- Field(s, 8, VersionChars);
      var t :- Field(s, d, Digits);
      var c :- Field(s, t, WordChars);
      Some(Marks(d, t, c))
  }

  /** A prefix ending in the separator `sep`, cut at `i`. */
  lemma PrefixThrough(s: string, i: nat, j: nat, sep: char)
    requires i < j <= |s| && s[j - 1] == sep
    ensures s[..j] == s[..i] + s[i..j - 1] + [sep]
  {
  }

  lemma PrefixAt(s: string, i: nat, j: nat)
    requires i <= j <= |s|
    ensures s[..j] == s[..i] + s[i..j]
  {
  }

  lemma HeadDashes(s: string, m: Marks)
    requires Head(s) == Some(m)
    ensures s[..8] == Lineage && s[m.date - 1] == '-' && s[m.kind - 1] == '-' && s[m.codename - 1] == '-'
  {
  }

  /** A string cut at the marks of its head reads as the build name. */
  lemma NameAt(s: string, m: Marks, e: nat)
    requires Head(s) == Some(m) && m.codename <= e <= |s|
    ensures s[..e] == Name(BuildId(s[8..m.date - 1], s[m.date..m.kind - 1], s[m.kind..m.codename - 1], s[m.codename..e]))
  {
    HeadDashes(s, m);
    PrefixThrough(s, 8, m.date, '-');
    PrefixThrough(s, m.date, m.kind, '-');
    PrefixThrough(s, m.kind, m.codename, '-');
    PrefixAt(s, m.codename, e);
  }

  /** The build name at the start of `s` once its head has matched: the
      codename field runs as far as word characters go and must not be empty. */
  function BuildAt(s: string, m: Marks): (r: Option<BuildId>)
    requires Head(s) == Some(m)
    ensures r.Some? ==> WellFormed(r.value) && StartsWith(s, Name(r.value))
    ensures r.Some? && |Name(r.value)| < |s| ==> !IsWord(s[|Name(r.value)|])
  {
    var e := RunEnd(s, m.codename, WordChars);
    if e == m.codename then None
    else
      var id := BuildId(s[8..m.date - 1], s[m.date..m.kind - 1], s[m.kind..m.codename - 1], s[m.codename..e]);
      NameAt(s, m, e);
      Some(id)
  }

  /** `build_re.match(s)`: the build name that starts `s`, if any. */
  function BuildMatch(s: string): (r: Option<BuildId>)
    ensures r.Some? ==> WellFormed(r.value) && StartsWith(s, Name(r.value))
    ensures r.Some? && |Name(r.value)| < |s| ==> !IsWord(s[|Name(r.value)|])
  {
    match Head(s)
    case None => None
    case Some(m) => BuildAt(s, m)
  }

  /** The marks of `lineage-V-D-T-C` followed by `rest`. */
  function NameMarks(id: BuildId): Marks {
    var d := 8 + |id.version| + 1;
    var t := d + |id.date| + 1;
    Marks(d, t, t + |id.kind| + 1)
  }

  /** A field `p-` at `i` is recognised as such. */
  lemma FieldOf(s: string, i: nat, p: string, k: Class)
    requires |p| > 0 && AllIn(p, k)
    requires i + |p| < |s| && s[i..i + |p|] == p && s[i + |p|] == '-'
    ensures Field(s, i, k) == Some(i + |p| + 1)
  {
    assert forall j :: i <= j < i + |p| ==> s[j] == s[i..i + |p|][j - i];
    RunEndAt(s, i, i + |p|, k);
  }

  lemma HeadFrom(s: string, m: Marks)
    requires 8 <= |s| && s[..8] == Lineage
    requires Field(s, 8, VersionChars) == Some(m.date)
    requires Field(s, m.date, Digits) == Some(m.kind)
    requires Field(s, m.kind, WordChars) == Some(m.codename)
    ensures Head(s) == Some(m)
  {
  }

  lemma BuildFrom(s: string, m: Marks, e: nat)
    requires Head(s) == Some(m) && m.codename < e
    requires RunEnd(s, m.codename, WordChars) == e
    ensures BuildMatch(s) == Some(BuildId(s[8..m.date - 1], s[m.date..m.kind - 1], s[m.kind..m.codename - 1], s[m.codename..e]))
  {
    assert BuildMatch(s) == BuildAt(s, m);
  }

  /** A string laid out as `lineage-V-D-T-C` up to `e`, not continued after `e`,
      is the match of exactly that build. */
  lemma MatchOfFields(s: string, id: BuildId, e: nat)
    requires WellFormed(id)
    requires e == NameMarks(id).codename + |id.codename| <= |s|
    requires s[..8] == Lineage
    requires s[8..NameMarks(id).date - 1] == id.version && s[NameMarks(id).date - 1] == '-'
    requires s[NameMarks(id).date..NameMarks(id).kind - 1] == id.date && s[NameMarks(id).kind - 1] == '-'
    requires s[NameMarks(id).kind..NameMarks(id).codename - 1] == id.kind && s[NameMarks(id).codename - 1] == '-'
    requires s[NameMarks(id).codename..e] == id.codename
    ensures Head(s) == Some(NameMarks(id))
    ensures e == |s| || !IsWord(s[e]) ==> BuildMatch(s) == Some(id)
  {
    var m := NameMarks(id);
    FieldOf(s, 8, id.version, VersionChars);
    FieldOf(s, m.date, id.date, Digits);
    FieldOf(s, m.kind, id.kind, WordChars);
    HeadFrom(s, m);
    if e == |s| || !IsWord(s[e]) {
      assert forall j :: m.codename <= j < e ==> s[j] == s[m.codename..e][j - m.codename];
      RunEndAt(s, m.codename, e, WordChars);
      BuildFrom(s, m, e);
    }
  }

  /** Where the parts of a build name sit in its text. */
  lemma NameLayout(id: BuildId, rest: string)
    ensures var s, m := Name(id) + rest, NameMarks(id);
      && m.codename + |id.codename| == |Name(id)| <= |s|
      && s[..8] == Lineage
      && s[8..m.date - 1] == id.version && s[m.date - 1] == '-'
      && s[m.date..m.kind - 1] == id.date && s[m.kind - 1] == '-'
      && s[m.kind..m.codename - 1] == id.kind && s[m.codename - 1] == '-'
      && s[m.codename..|Name(id)|] == id.codename
      && s[|Name(id)|..] == rest
  {
  }

  lemma HeadOfName(id: BuildId, rest: string)
    requires WellFormed(id)
    ensures Head(Name(id) + rest) == Some(NameMarks(id))
  {
    NameLayout(id, rest);
    MatchOfFields(Name(id) + rest, id, |Name(id)|);
  }

  /** Every build name, followed by anything that does not continue its
      codename, is recognised as exactly that build. */
  lemma NameMatches(id: BuildId, rest: string)
    requires WellFormed(id)
    requires rest == [] || !IsWord(rest[0])
    ensures BuildMatch(Name(id) + rest) == Some(id)
  {
    var s := Name(id) + rest;
    NameLayout(id, rest);
    assert |Name(id)| < |s| ==> s[|Name(id)|] == s[|Name(id)|..][0] == rest[0];
    MatchOfFields(s, id, |Name(id)|);
  }

  lemma NoneIn(s: string, k: Class, c: char)
    requires AllIn(s, k) && !In(c, k)
    ensures c !in s
  {
    assert forall i :: 0 <= i < |s| ==> s[i] != c;
  }

  /** `build_name.split("-")` gives back the five parts of the name. */
  lemma NameTokens(id: BuildId)
    requires WellFormed(id)
    ensures Split(Name(id), '-') == ["lineage", id.version, id.date, id.kind, id.codename]
  {
    var ts := ["lineage", id.version, id.date, id.kind, id.codename];
    NoneIn(id.version, VersionChars, '-');
    NoneIn(id.date, Digits, '-');
    NoneIn(id.kind, WordChars, '-');
    NoneIn(id.codename, WordChars, '-');
    assert Join(ts[4..], '-') == id.codename;
    assert Join(ts[3..], '-') == id.kind + "-" + id.codename;
    assert Join(ts[2..], '-') == id.date + "-" + (id.kind + "-" + id.codename);
    assert Join(ts[1..], '-') == id.version + "-" + (id.date + "-" + (id.kind + "-" + id.codename));
    assert Join(ts, '-') == Name(id);
    SplitJoin(ts, '-');
  }

  /** A build name holds no `/`, so `split("/")[-1]` is the name itself. */
  lemma NameWhole(id: BuildId)
    requires WellFormed(id)
    ensures Split(Name(id), '/') == [Name(id)]
  {
    NoneIn(id.version, VersionChars, '/');
    NoneIn(id.date, Digits, '/');
    NoneIn(id.kind, WordChars, '/');
    NoneIn(id.codename, WordChars, '/');
    assert '/' !in Name(id);
    SplitWithout(Name(id), '/');
  }

  /** `files_re.match(b)`: the head, then `[\w]+[.,\w]+`, i.e. a word character
      followed by one more character of `[.,\w]`. */
  predicate FileMatch(b: string) {
    match Head(b)
    case None => false
    case Some(m) =>
      m.codename + 1 < |b| && IsWord(b[m.codename])
      && (IsWord(b[m.codename + 1]) || b[m.codename + 1] == '.' || b[m.codename + 1] == ',')
  }

  /** A name accepted by the file pattern starts with a build name. */
  lemma FileMatchBuild(b: string)
    requires FileMatch(b)
    ensures BuildMatch(b).Some?
  {
  }

  /** A file pattern match is a build name followed by one of `.` or `,`, or
      by nothing but whose codename is at least two characters long. */
  lemma FileMatchShape(id: BuildId, rest: string)
    requires WellFormed(id)
    requires rest == [] || !IsWord(rest[0])
    ensures FileMatch(Name(id) + rest) <==>
              (|rest| > 0 && (rest[0] == '.' || rest[0] == ',')) || |id.codename| >= 2
  {
    HeadOfName(id, rest);
    NameLayout(id, rest);
    var s := Name(id) + rest;
    var c := NameMarks(id).codename;
    assert s[c] == s[c..|Name(id)|][0] == id.codename[0];
    if |id.codename| >= 2 {
      assert s[c + 1] == s[c..|Name(id)|][1] == id.codename[1];
    } else if |rest| > 0 {
      assert s[c + 1] == s[|Name(id)|..][0] == rest[0];
    }
  }

  /** `os.path.basename(p)`: what follows the last `/`. */
  function Basename(p: string): (b: string)
    ensures |b| <= |p| && b == p[|p| - |b|..]
    ensures '/' !in b
    ensures |b| < |p| ==> p[|p| - |b| - 1] == '/'
  {
    if p == [] || p[|p| - 1] == '/' then []
    else
      var b := Basename(p[..|p| - 1]) + [p[|p| - 1]];
      b
  }

  /** A hit of `build_re.search`: where the match starts and what it is. */
  datatype Hit = Hit(at: nat, id: BuildId)

  /** `build_re.search(s[i..])`, positions counted in `s`: the leftmost start at
      or after `i` where the pattern matches. */
  function SearchFrom(s: string, i: nat): (r: Option<Hit>)
    requires i <= |s|
    decreases |s| - i
    ensures r.Some? ==> i <= r.value.at <= |s| && BuildMatch(s[r.value.at..]) == Some(r.value.id)
    ensures r.Some? ==> forall j :: i <= j < r.value.at ==> BuildMatch(s[j..]).None?
    ensures r.None? ==> forall j :: i <= j <= |s| ==> BuildMatch(s[j..]).None?
  {
    var here := BuildMatch(s[i..]);
    if here.Some? then Some(Hit(i, here.value))
    else if i == |s| then None
    else
      var r := SearchFrom(s, i + 1);
      assert forall j :: i <= j < i + 1 ==> BuildMatch(s[j..]).None? by {
        forall j | i <= j < i + 1 ensures BuildMatch(s[j..]).None? { assert j == i; }
      }
      r
  }

  function Search(s: string): Option<Hit> {
    SearchFrom(s, 0)
  }

  /** `files_re.match(basename(f))`: the file is a build artefact. */
  predicate Selected(f: string) {
    FileMatch(Basename(f))
  }

  /** The `search` on a selected path always finds a build name (so `.group(0)`
      never meets `None`), and at the latest at the start of the basename. */
  lemma SelectedFound(f: string)
    requires Selected(f)
    ensures Search(f).Some? && Search(f).value.at <= |f| - |Basename(f)|
  {
    var b := Basename(f);
    FileMatchBuild(b);
    assert f[|f| - |b|..] == b;
  }

  /** When no build name starts in the directory part of a path, the `search`
      finds the basename's own build. */
  lemma SearchInBasename(f: string)
    requires Selected(f)
    requires forall j :: 0 <= j < |f| - |Basename(f)| ==> BuildMatch(f[j..]).None?
    ensures Search(f) == Some(Hit(|f| - |Basename(f)|, BuildMatch(Basename(f)).value))
  {
    var b := Basename(f);
    FileMatchBuild(b);
    assert f[|f| - |b|..] == b;
  }

  // ----- datetime.strptime(token, "%Y%m%d") -----

  function DigitValue(c: char): nat
    requires IsDigit(c)
  {
    c as int - '0' as int
  }

  /** The value of a string of decimal digits. */
  function Number(s: string): nat
    requires AllIn(s, Digits)
  {
    if s == [] then 0 else 10 * Number(s[..|s| - 1]) + DigitValue(s[|s| - 1])
  }

  predicate IsLeap(y: int) { y % 4 == 0 && (y % 100 != 0 || y % 400 == 0) }

  function DaysInMonth(y: int, m: int): (n: nat)
    requires 1 <= m <= 12
    ensures 28 <= n <= 31
  {
    if m == 2 then (if IsLeap(y) then 29 else 28)
    else if m == 4 || m == 6 || m == 9 || m == 11 then 30
    else 31
  }

  /** The date key `y * 10000 + m * 100 + d` orders like the calendar. */
  predicate ValidKey(key: int) {
    var y, m, d := key / 10000, key / 100 % 100, key % 100;
    y >= 1 && 1 <= m <= 12 && 1 <= d <= DaysInMonth(y, m)
  }

  lemma KeyParts(y: nat, m: nat, d: nat)
    requires 1 <= m <= 12 && 1 <= d <= 31
    ensures (y * 10000 + m * 100 + d) / 10000 == y
    ensures (y * 10000 + m * 100 + d) / 100 % 100 == m
    ensures (y * 10000 + m * 100 + d) % 100 == d
  {
    assert (y * 10000 + m * 100 + d) / 100 == y * 100 + m;
  }

  /** One alternative of the `%m` or `%d` pattern: its value and its length. */
  datatype Choice = Choice(value: nat, len: nat)

  predicate NonZero(c: char) { '1' <= c <= '9' }

  /** The alternatives of `%m` = `1[0-2]|0[1-9]|[1-9]` that match at `p`, in
      the order the regular-expression engine tries them. */
  function MonthChoices(t: string, p: nat): (r: seq<Choice>)
    ensures forall i :: 0 <= i < |r| ==> 1 <= r[i].value <= 12 && 1 <= r[i].len <= 2
    ensures forall i :: 0 <= i < |r| ==> p + r[i].len <= |t|
  {
    (if p + 1 < |t| && t[p] == '1' && '0' <= t[p + 1] <= '2' then [Choice(10 + DigitValue(t[p + 1]), 2)] else [])
    + (if p + 1 < |t| && t[p] == '0' && NonZero(t[p + 1]) then [Choice(DigitValue(t[p + 1]), 2)] else [])
    + (if p < |t| && NonZero(t[p]) then [Choice(DigitValue(t[p]), 1)] else [])
  }

  /** The first alternative of `%d` = `3[01]|[12]\d|0[1-9]|[1-9]| [1-9]` that
      matches at `p`. */
  function DayChoice(t: string, p: nat): (r: Option<Choice>)
    ensures r.Some? ==> 1 <= r.value.value <= 31 && 1 <= r.value.len <= 2 && p + r.value.len <= |t|
  {
    if p + 1 < |t| && t[p] == '3' && (t[p + 1] == '0' || t[p + 1] == '1') then
      Some(Choice(30 + DigitValue(t[p + 1]), 2))
    else if p + 1 < |t| && (t[p] == '1' || t[p] == '2') && IsDigit(t[p + 1]) then
      Some(Choice(10 * DigitValue(t[p]) + DigitValue(t[p + 1]), 2))
    else if p + 1 < |t| && t[p] == '0' && NonZero(t[p + 1]) then
      Some(Choice(DigitValue(t[p + 1]), 2))
    else if p < |t| && NonZero(t[p]) then
      Some(Choice(DigitValue(t[p]), 1))
    else if p + 1 < |t| && t[p] == ' ' && NonZero(t[p + 1]) then
      Some(Choice(DigitValue(t[p + 1]), 2))
    else None
  }

  /** The first month alternative after which some day alternative matches:
      the engine backtracks into `%m` only when `%d` fails altogether. */
  function FirstWithDay(t: string, p: nat, ms: seq<Choice>): (r: Option<(Choice, Choice)>)
    ensures r.Some? ==> r.value.0 in ms && DayChoice(t, p + r.value.0.len) == Some(r.value.1)
  {
    if ms == [] then None
    else match DayChoice(t, p + ms[0].len)
      case Some(d) => Some((ms[0], d))
      case None => FirstWithDay(t, p, ms[1..])
  }

  /** `datetime.strptime(t, "%Y%m%d")` as a date key, or `None` where it raises
      `ValueError`: the first match of `\d\d\d\d`, `%m`, `%d` must reach the end of
      `t`, the year must be at least 1 and the day must exist in that month. */
  function ParseDate(t: string): (r: Option<int>)
    ensures r.Some? ==> ValidKey(r.value)
    ensures r.Some? ==> 6 <= |t| <= 8
  {
    if |t| < 4 || !AllIn(t[..4], Digits) then None
    else
      var (m, d) :- FirstWithDay(t, 4, MonthChoices(t, 4));
      var y := Number(t[..4]);
      if 4 + m.len + d.len == |t| && y >= 1 && d.value <= DaysInMonth(y, m.value) then
        KeyParts(y, m.value, d.value);
        Some(y * 10000 + m.value * 100 + d.value)
      else None
  }

  predicate CalendarDate(y: int, m: int, d: int) {
    y >= 1 && 1 <= m <= 12 && 1 <= d <= DaysInMonth(y, m)
  }

  function Pow10(n: nat): nat {
    if n == 0 then 1 else 10 * Pow10(n - 1)
  }

  /** A digit string read as a number splits at any position like its text. */
  lemma Shift(x: int, p: int, y: int, c: int)
    ensures 10 * (x * p + y) + c == x * (10 * p) + (10 * y + c)
  {
  }

  /** A digit string read as a number splits at any position like its text. */
  lemma {:induction false} NumberSplit(s: string, k: nat)
    requires AllIn(s, Digits) && k <= |s|
    ensures Number(s) == Number(s[..k]) * Pow10(|s| - k) + Number(s[k..])
    decreases |s| - k
  {
    if k < |s| {
      var s' := s[..|s| - 1];
      NumberSplit(s', k);
      assert s'[..k] == s[..k];
      var u := s[k..];
      assert u[..|u| - 1] == s'[k..] && u[|u| - 1] == s[|s| - 1];
      var x, p, y, c := Number(s[..k]), Pow10(|s'| - k), Number(s'[k..]), DigitValue(s[|s| - 1]);
      assert Number(s) == 10 * Number(s') + c;
      assert Number(u) == 10 * y + c;
      Shift(x, p, y, c);
    } else {
      assert s[..k] == s;
    }
  }

  lemma MonthOfEight(t: string)
    requires |t| == 8 && AllIn(t, Digits)
    ensures var ms, m := MonthChoices(t, 4), Number(t[4..6]);
      && (forall i :: 0 <= i < |ms| && ms[i].len == 2 ==> ms[i].value == m)
      && (1 <= m <= 12 ==> |ms| > 0 && ms[0] == Choice(m, 2))
  {
    var u := t[4..6];
    assert u[..1] == [t[4]] && u[1] == t[5];
    assert Number([t[4]]) == DigitValue(t[4]) by { assert [t[4]][..0] == []; }
  }

  lemma DayOfEight(t: string)
    requires |t| == 8 && AllIn(t, Digits)
    ensures var dc, d := DayChoice(t, 6), Number(t[6..]);
      && (dc.Some? && dc.value.len == 2 ==> dc.value.value == d)
      && (1 <= d <= 31 ==> dc == Some(Choice(d, 2)))
  {
    var u := t[6..];
    assert u[..1] == [t[6]] && u[1] == t[7];
    assert Number([t[6]]) == DigitValue(t[6]) by { assert [t[6]][..0] == []; }
  }

  /** On eight digits, `strptime("%Y%m%d")` accepts exactly the calendar dates
      `YYYYMMDD` (from year 1), and the key is the digits read as a number. */
  lemma EightDigitDate(t: string)
    requires |t| == 8 && AllIn(t, Digits)
    ensures ParseDate(t).Some? <==> CalendarDate(Number(t[..4]), Number(t[4..6]), Number(t[6..]))
    ensures ParseDate(t).Some? ==> ParseDate(t).value == Number(t)
  {
    MonthOfEight(t);
    DayOfEight(t);
    EightDigitNumber(t);
    assert t[..4][..4] == t[..4];
  }

  lemma EightDigitNumber(t: string)
    requires |t| == 8 && AllIn(t, Digits)
    ensures Number(t) == Number(t[..4]) * 10000 + Number(t[4..6]) * 100 + Number(t[6..])
  {
    assert Pow10(2) == 100;
    NumberSplit(t, 6);
    NumberSplit(t[..6], 4);
    assert t[..6][..4] == t[..4] && t[..6][4..] == t[4..6];
    var y, m, d := Number(t[..4]), Number(t[4..6]), Number(t[6..]);
    assert Number(t[..6]) == y * 100 + m;
    assert Number(t) == (y * 100 + m) * 100 + d;
  }

  /** Shorter tokens are read the way the regular expression backtracks:
      in `202311` the month `11` leaves no day, so the month is `1` and the day
      `1`; in `2023111` the month `11` is followed by the day `1`. */
  lemma ShortDates()
    ensures ParseDate("202311") == Some(20230101)
    ensures ParseDate("2023111") == Some(20231101)
  {
    var t6, t7 := "202311", "2023111";
    assert t6[..4] == "2023" && t7[..4] == "2023";
    assert Number("2023") == 2023 by {
      assert "2023"[..3] == "202" && "202"[..2] == "20" && "20"[..1] == "2" && "2"[..0] == [];
    }
  }
}
