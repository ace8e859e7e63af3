/**
 * The pieces of Python's `str` behaviour both components rely on: character
 * classes, `strip`/`lstrip`/`rstrip`, `startswith`/`endswith`, `split(sep)` and
 * `split(maxsplit=...)` on whitespace. Character classes are the ASCII part of
 * Python's Unicode classes.
 */
module Text {
  import opened Seqs

  /** `str.isspace` on ASCII: tab, line feed, vertical tab, form feed, carriage
      return, the separators 0x1C to 0x1F, and space. */
  predicate IsSpace(c: char) {
    var n := c as int;
    n == 32 || 9 <= n <= 13 || 28 <= n <= 31
  }

  predicate NotSpace(c: char) { !IsSpace(c) }

  /** Regular-expression class `\d`. */
  predicate IsDigit(c: char) { '0' <= c <= '9' }

  /** Regular-expression class `\w`. */
  predicate IsWord(c: char) { 'a' <= c <= 'z' || 'A' <= c <= 'Z' || IsDigit(c) || c == '_' }

  predicate All(s: string, p: char -> bool) { forall i :: 0 <= i < |s| ==> p(s[i]) }

  /** Length of the longest prefix of `s` made of characters satisfying `p`
      (how far a greedy `[...]*` runs). */
  function Span(s: string, p: char -> bool): (n: nat)
    ensures n <= |s|
    ensures All(s[..n], p)
    ensures n < |s| ==> !p(s[n])
  {
    if s == [] || !p(s[0]) then 0 else 1 + Span(s[1..], p)
  }

  lemma {:induction false} SpanOfConcat(a: string, b: string, p: char -> bool)
    requires All(a, p)
    requires b == [] || !p(b[0])
    ensures Span(a + b, p) == |a|
  {
    if a != [] {
      assert (a + b)[1..] == a[1..] + b;
      SpanOfConcat(a[1..], b, p);
    } else {
      assert a + b == b;
    }
  }

  /** `s.lstrip(chars)`: drop the leading characters satisfying `p`. */
  function TrimStart(s: string, p: char -> bool): (r: string)
    ensures |r| <= |s| && r == s[|s| - |r|..]
    ensures All(s[..|s| - |r|], p)
    ensures r == [] || !p(r[0])
  {
    s[Span(s, p)..]
  }

  /** `s.rstrip(chars)`: drop the trailing characters satisfying `p`. */
  function TrimEnd(s: string, p: char -> bool): (r: string)
    ensures |r| <= |s| && r == s[..|r|]
    ensures All(s[|r|..], p)
    ensures r == [] || !p(r[|r| - 1])
  {
    if s != [] && p(s[|s| - 1]) then TrimEnd(s[..|s| - 1], p) else s
  }

  /** `r` is `s` less a run of characters satisfying `p` at either end. */
  predicate StrippedFrom(s: string, r: string, p: char -> bool) {
    exists i :: 0 <= i <= |s| - |r| && s[i..i + |r|] == r && All(s[..i], p) && All(s[i + |r|..], p)
  }

  /** `s.strip(chars)`: both ends. */
  function StripBy(s: string, p: char -> bool): (r: string)
    ensures r == [] <==> All(s, p)
    ensures r != [] ==> !p(r[0]) && !p(r[|r| - 1])
    ensures StrippedFrom(s, r, p)
  {
    var t := TrimStart(s, p);
    var r := TrimEnd(t, p);
    StrippedAt(s, t, r, p);
    r
  }

  lemma StrippedAt(s: string, t: string, r: string, p: char -> bool)
    requires |t| <= |s| && t == s[|s| - |t|..] && All(s[..|s| - |t|], p)
    requires |r| <= |t| && r == t[..|r|] && All(t[|r|..], p)
    ensures StrippedFrom(s, r, p)
  {
    var i := |s| - |t|;
    assert s[i..i + |r|] == r && s[i + |r|..] == t[|r|..];
  }

  /** `rstrip` gives back what precedes a run of the set. */
  lemma {:induction false} TrimEndOfConcat(x: string, b: string, p: char -> bool)
    requires All(b, p)
    requires x == [] || !p(x[|x| - 1])
    ensures TrimEnd(x + b, p) == x
    decreases |b|
  {
    if b == [] {
      assert x + b == x;
    } else {
      var b' := b[..|b| - 1];
      assert (x + b)[..|x + b| - 1] == x + b';
      TrimEndOfConcat(x, b', p);
    }
  }

  /** `strip` gives back what is wrapped in runs of the set, so a value
      quoted on both sides comes back unquoted. */
  lemma StripAround(a: string, x: string, b: string, p: char -> bool)
    requires All(a, p) && All(b, p)
    requires x == [] || (!p(x[0]) && !p(x[|x| - 1]))
    ensures StripBy(a + x + b, p) == x
  {
    var s := a + x + b;
    if x == [] {
      assert forall j :: 0 <= j < |s| ==> p(s[j]) by {
        forall j | 0 <= j < |s| ensures p(s[j]) {
          if j < |a| { assert s[j] == a[j]; } else { assert s[j] == b[j - |a|]; }
        }
      }
    } else {
      assert s == a + (x + b);
      SpanOfConcat(a, x + b, p);
      assert TrimStart(s, p) == x + b;
      TrimEndOfConcat(x, b, p);
    }
  }

  /** `s.strip()`. */
  function Strip(s: string): string {
    StripBy(s, IsSpace)
  }

  predicate StartsWith(s: string, prefix: string) {
    |prefix| <= |s| && s[..|prefix|] == prefix
  }

  predicate EndsWith(s: string, suffix: string) {
    |suffix| <= |s| && s[|s| - |suffix|..] == suffix
  }

  /** `s.split(sep)` for a one-character separator. */
  function Split(s: string, sep: char): (r: seq<string>)
    ensures |r| >= 1
    ensures forall i :: 0 <= i < |r| ==> sep !in r[i]
  {
    if s == [] then [[]]
    else
      var rest := Split(s[1..], sep);
      if s[0] == sep then [[]] + rest else [[s[0]] + rest[0]] + rest[1..]
  }

  /** `sep.join(ts)` for a non-empty list. */
  function Join(ts: seq<string>, sep: char): string
    requires |ts| >= 1
  {
    if |ts| == 1 then ts[0] else ts[0] + [sep] + Join(ts[1..], sep)
  }

  /** Number of occurrences of `c` in `s`. */
  function Count(s: string, c: char): nat {
    if s == [] then 0 else (if s[0] == c then 1 else 0) + Count(s[1..], c)
  }

  lemma {:induction false} SplitWithout(t: string, sep: char)
    requires sep !in t
    ensures Split(t, sep) == [t]
  {
    if t != [] {
      SplitWithout(t[1..], sep);
      assert [t[0]] + t[1..] == t;
    }
  }

  lemma {:induction false} SplitAfter(t: string, u: string, sep: char)
    requires sep !in t
    ensures Split(t + [sep] + u, sep) == [t] + Split(u, sep)
  {
    var s := t + [sep] + u;
    if t == [] {
      assert s[1..] == u;
    } else {
      assert s[1..] == t[1..] + [sep] + u;
      SplitAfter(t[1..], u, sep);
      assert [t[0]] + t[1..] == t;
    }
  }

  /** Splitting what was joined gives the pieces back, when no piece holds the
      separator. */
  lemma {:induction false} SplitJoin(ts: seq<string>, sep: char)
    requires |ts| >= 1
    requires forall i :: 0 <= i < |ts| ==> sep !in ts[i]
    ensures Split(Join(ts, sep), sep) == ts
  {
    if |ts| == 1 {
      SplitWithout(ts[0], sep);
    } else {
      SplitJoin(ts[1..], sep);
      SplitAfter(ts[0], Join(ts[1..], sep), sep);
      assert [ts[0]] + ts[1..] == ts;
    }
  }

  /** Joining the pieces of a split gives the string back. */
  lemma {:induction false} JoinSplit(s: string, sep: char)
    ensures Join(Split(s, sep), sep) == s
  {
    if s != [] {
      JoinSplit(s[1..], sep);
      var rest := Split(s[1..], sep);
      if s[0] != sep {
        if |rest| == 1 {
          assert Join(rest, sep) == rest[0];
        } else {
          assert rest == [rest[0]] + rest[1..];
          assert Join(rest, sep) == rest[0] + [sep] + Join(rest[1..], sep);
        }
        assert [s[0]] + s[1..] == s;
      } else {
        assert [s[0]] + s[1..] == s;
      }
    }
  }

  /** `s.split(sep)` has one more piece than `s` has separators. */
  lemma {:induction false} SplitCount(s: string, sep: char)
    ensures |Split(s, sep)| == Count(s, sep) + 1
  {
    if s != [] {
      SplitCount(s[1..], sep);
    }
  }

  /** A field of a whitespace split: non-empty, not starting with whitespace. */
  predicate Field(w: string) { |w| > 0 && !IsSpace(w[0]) }

  /** A run of non-whitespace characters. */
  predicate Word(w: string) { |w| > 0 && forall j :: 0 <= j < |w| ==> !IsSpace(w[j]) }

  predicate Blank(s: string) { forall j :: 0 <= j < |s| ==> IsSpace(s[j]) }

  /** Length of the run of non-whitespace at the start of `s`. */
  function WordLen(s: string): (n: nat)
    ensures n <= |s|
    ensures s != [] && !IsSpace(s[0]) ==> n > 0
  {
    if s == [] || IsSpace(s[0]) then 0 else 1 + WordLen(s[1..])
  }

  /**
   * `s.split(maxsplit=m)`: runs of whitespace separate the fields, leading
   * whitespace is skipped, and after `m` fields the rest of the string (with its
   * leading whitespace dropped) is the last field.
   */
  function SplitWhitespace(s: string, maxsplit: nat): (r: seq<string>)
    ensures |r| <= maxsplit + 1
    ensures forall f :: 0 <= f < |r| ==> Field(r[f])
  {
    if s == [] then []
    else if IsSpace(s[0]) then SplitWhitespace(s[1..], maxsplit)
    else if maxsplit == 0 then [s]
    else
      var n := WordLen(s);
      var rest := SplitWhitespace(s[n..], maxsplit - 1);
      var r := [s[..n]] + rest;
      assert forall f :: 0 < f < |r| ==> r[f] == rest[f - 1];
      r
  }

  /** A string splits into no field exactly when it is all whitespace. */
  lemma {:induction false} SplitWhitespaceBlank(s: string, m: nat)
    ensures SplitWhitespace(s, m) == [] <==> Blank(s)
  {
    if s != [] && IsSpace(s[0]) {
      SplitWhitespaceBlank(s[1..], m);
      assert forall j :: 1 <= j < |s| ==> s[j] == s[1..][j - 1];
    }
  }

  lemma {:induction false} WordLenOf(w: string, rest: string)
    requires Word(w)
    requires rest == [] || IsSpace(rest[0])
    ensures WordLen(w + rest) == |w|
  {
    if |w| == 1 {
      assert (w + rest)[1..] == rest;
    } else {
      assert (w + rest)[1..] == w[1..] + rest;
      WordLenOf(w[1..], rest);
    }
  }

  /** Leading whitespace, then a word ended by whitespace or the end of the
      string: the word is the first field and the split goes on after it. */
  lemma {:induction false} SplitWhitespaceCons(g: string, w: string, rest: string, m: nat)
    requires Blank(g) && Word(w) && m > 0
    requires rest == [] || IsSpace(rest[0])
    ensures SplitWhitespace(g + w + rest, m) == [w] + SplitWhitespace(rest, m - 1)
  {
    var s := g + w + rest;
    if g == [] {
      assert s == w + rest;
      WordLenOf(w, rest);
      assert s[..|w|] == w && s[|w|..] == rest;
    } else {
      assert s[0] == g[0];
      assert s[1..] == g[1..] + w + rest;
      SplitWhitespaceCons(g[1..], w, rest, m);
    }
  }

  /** With no split left, the field is the rest after the whitespace. */
  lemma {:induction false} SplitWhitespaceLast(g: string, t: string)
    requires Blank(g) && Field(t)
    ensures SplitWhitespace(g + t, 0) == [t]
  {
    if g == [] {
      assert g + t == t;
    } else {
      assert (g + t)[0] == g[0];
      assert (g + t)[1..] == g[1..] + t;
      SplitWhitespaceLast(g[1..], t);
    }
  }

  /** `gaps[0] + words[0] + gaps[1] + ... + words[n - 1] + gaps[n]`. */
  function Weave(gaps: seq<string>, words: seq<string>): string
    requires |gaps| == |words| + 1
  {
    if words == [] then gaps[0] else gaps[0] + words[0] + Weave(gaps[1..], words[1..])
  }

  /**
   * `words` laid out between the whitespace runs `gaps`, then `rest`: the
   * words are separated by whitespace, and a non-empty `rest` is what is left
   * once the `m` splits are used up.
   */
  predicate Layout(gaps: seq<string>, words: seq<string>, rest: string, m: nat) {
    && |gaps| == |words| + 1
    && (forall k :: 0 <= k < |gaps| ==> Blank(gaps[k]))
    && (forall k :: 0 <= k < |words| ==> Word(words[k]))
    && (forall k :: 0 < k < |words| ==> gaps[k] != [])
    && (rest != [] && words != [] ==> gaps[|words|] != [])
    && (rest == [] ==> |words| <= m)
    && (rest != [] ==> |words| == m && Field(rest))
  }

  /** The fields a layout splits into: its words, then the rest if any. */
  function Fields(words: seq<string>, rest: string): seq<string> {
    words + (if rest == [] then [] else [rest])
  }

  lemma LayoutTail(gaps: seq<string>, words: seq<string>, rest: string, m: nat)
    requires Layout(gaps, words, rest, m) && words != []
    ensures m > 0 && Layout(gaps[1..], words[1..], rest, m - 1)
    ensures Blank(gaps[0]) && Word(words[0])
    ensures var tail := Weave(gaps[1..], words[1..]) + rest; tail == [] || IsSpace(tail[0])
  {
    var tail := Weave(gaps[1..], words[1..]) + rest;
    if gaps[1] != [] {
      assert tail[0] == gaps[1][0];
    } else {
      assert tail == [];
    }
  }

  /** A word in front adds one field in front of the split. */
  lemma WeaveStep(g: string, w: string, x: string, rest: string, m: nat, fields: seq<string>)
    requires Blank(g) && Word(w) && m > 0
    requires x + rest == [] || IsSpace((x + rest)[0])
    requires SplitWhitespace(x + rest, m - 1) == fields
    ensures SplitWhitespace(g + w + x + rest, m) == [w] + fields
  {
    AppendAssoc(g + w, x, rest);
    SplitWhitespaceCons(g, w, x + rest, m);
  }

  /**
   * The fields of a whitespace split are the words of the string in order:
   * for words laid out between runs of whitespace, followed (once `m` words
   * are taken) by a remainder, the split gives back those words and then the
   * remainder.
   */
  lemma {:induction false} SplitWhitespaceWords(gaps: seq<string>, words: seq<string>, rest: string, m: nat)
    requires Layout(gaps, words, rest, m)
    ensures SplitWhitespace(Weave(gaps, words) + rest, m) == Fields(words, rest)
  {
    if words == [] {
      if rest == [] {
        assert gaps[0] + rest == gaps[0];
        SplitWhitespaceBlank(gaps[0], m);
      } else {
        SplitWhitespaceLast(gaps[0], rest);
      }
    } else {
      var x := Weave(gaps[1..], words[1..]);
      LayoutTail(gaps, words, rest, m);
      SplitWhitespaceWords(gaps[1..], words[1..], rest, m - 1);
      WeaveStep(gaps[0], words[0], x, rest, m, Fields(words[1..], rest));
      assert Weave(gaps, words) == gaps[0] + words[0] + x;
      assert [words[0]] + words[1..] == words;
    }
  }

  /** A last word with whitespace around it, one split left: that word. */
  lemma SplitLastWord(g1: string, w1: string, g2: string)
    requires Blank(g1) && Blank(g2) && Word(w1)
    ensures SplitWhitespace(g1 + w1 + g2, 1) == [w1]
  {
    assert g2 == [] || IsSpace(g2[0]);
    SplitWhitespaceCons(g1, w1, g2, 1);
    SplitWhitespaceBlank(g2, 0);
  }

  /** An instruction with one operand, `CMD ARG`, splits into those two words. */
  lemma SplitTwoWords(g0: string, w0: string, g1: string, w1: string, g2: string)
    requires Blank(g0) && Blank(g1) && Blank(g2) && g1 != []
    requires Word(w0) && Word(w1)
    ensures SplitWhitespace(g0 + w0 + g1 + w1 + g2, 2) == [w0, w1]
  {
    var t := g1 + w1 + g2;
    Regroup(g0, w0, g1, w1, g2, []);
    assert g0 + w0 + g1 + w1 + g2 + [] == g0 + w0 + g1 + w1 + g2;
    assert g1 + w1 + (g2 + []) == t;
    assert t[0] == g1[0];
    SplitWhitespaceCons(g0, w0, t, 2);
    SplitLastWord(g1, w1, g2);
  }

  /** `KEY VALUE` with one split left: the key, then the rest as the value. */
  lemma SplitKeyValue(g1: string, w1: string, g2: string, rest: string)
    requires Blank(g1) && Blank(g2) && g2 != []
    requires Word(w1) && Field(rest)
    ensures SplitWhitespace(g1 + w1 + (g2 + rest), 1) == [w1, rest]
  {
    assert (g2 + rest)[0] == g2[0];
    SplitWhitespaceCons(g1, w1, g2 + rest, 1);
    SplitWhitespaceLast(g2, rest);
  }

  /**
   * `CMD KEY VALUE` under `split(maxsplit=2)`: the instruction word, the key,
   * and everything after the key's whitespace as the value, whitespace inside
   * it included.
   */
  lemma SplitThreeFields(g0: string, w0: string, g1: string, w1: string, g2: string, rest: string)
    requires Blank(g0) && Blank(g1) && Blank(g2) && g1 != [] && g2 != []
    requires Word(w0) && Word(w1) && Field(rest)
    ensures SplitWhitespace(g0 + w0 + g1 + w1 + g2 + rest, 2) == [w0, w1, rest]
  {
    var t := g1 + w1 + (g2 + rest);
    Regroup(g0, w0, g1, w1, g2, rest);
    assert t[0] == g1[0];
    SplitWhitespaceCons(g0, w0, t, 2);
    SplitKeyValue(g1, w1, g2, rest);
  }
}
