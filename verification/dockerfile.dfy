/**
 * `get_docker_cmd` of run.py: the Dockerfile is read line by line; comment
 * lines (starting with `#`) and blank lines are skipped, a line ending in a
 * backslash and a newline is stripped, loses its trailing backslashes and is
 * kept pending, and any other line completes a command made of the pending
 * text followed by the stripped line.
 */
module Dockerfile {
  import opened Text
  import opened Seqs

  // ----- the lines of a text file -----

  /** What one iteration of `for line in f` yields: a non-empty line whose only
      newline, if any, is its last character. */
  predicate IsLine(l: string) {
    |l| > 0 && forall j :: 0 <= j < |l| - 1 ==> l[j] != '\n'
  }

  /** Where the line starting at `i` ends: just after its newline, or at the
      end of the text. */
  function LineEnd(text: string, i: nat): (e: nat)
    requires i < |text|
    decreases |text| - i
    ensures i < e <= |text|
    ensures forall j :: i <= j < e - 1 ==> text[j] != '\n'
    ensures e < |text| ==> text[e - 1] == '\n'
  {
    if text[i] == '\n' || i + 1 == |text| then i + 1 else LineEnd(text, i + 1)
  }

  function Concat(ls: seq<string>): string {
    if ls == [] then [] else ls[0] + Concat(ls[1..])
  }

  /** The first line of `text`, then the lines after it. */
  lemma ConsLine(text: string, e: nat, rest: seq<string>)
    requires 0 < e <= |text|
    requires forall j :: 0 <= j < e - 1 ==> text[j] != '\n'
    requires e < |text| ==> text[e - 1] == '\n'
    requires Concat(rest) == text[e..]
    requires forall i :: 0 <= i < |rest| ==> IsLine(rest[i])
    requires forall i :: 0 <= i < |rest| - 1 ==> EndsWith(rest[i], "\n")
    requires rest == [] <==> e == |text|
    ensures var r := [text[..e]] + rest;
      && Concat(r) == text
      && (forall i :: 0 <= i < |r| ==> IsLine(r[i]))
      && (forall i :: 0 <= i < |r| - 1 ==> EndsWith(r[i], "\n"))
  {
    var line := text[..e];
    var r := [line] + rest;
    assert r[0] == line && r[1..] == rest;
    SplitAt(text, e);
    assert IsLine(line);
    assert rest != [] ==> EndsWith(line, "\n") by {
      if rest != [] {
        assert line[e - 1..] == [text[e - 1]];
      }
    }
    assert forall i :: 1 <= i < |r| ==> r[i] == rest[i - 1];
  }

  /** The lines of `text` in order; every one but the last ends in a newline. */
  function FileLines(text: string): (r: seq<string>)
    decreases |text|
    ensures Concat(r) == text
    ensures forall i :: 0 <= i < |r| ==> IsLine(r[i])
    ensures forall i :: 0 <= i < |r| - 1 ==> EndsWith(r[i], "\n")
  {
    if text == [] then []
    else
      var e := LineEnd(text, 0);
      ConsLine(text, e, FileLines(text[e..]));
      [text[..e]] + FileLines(text[e..])
  }

  // ----- the generator -----

  predicate IsBackslash(c: char) { c == '\\' }

  /** Comment and blank lines: ignored. */
  predicate Skipped(line: string) {
    StartsWith(line, "#") || Strip(line) == []
  }

  /** Continuation lines: `line.endswith("\\\n")`. */
  predicate Continues(line: string) {
    EndsWith(line, "\\\n")
  }

  /** Lines that complete a command. */
  predicate Completes(line: string) {
    !Skipped(line) && !Continues(line)
  }

  /** The generator's state: `prev_lines` and the commands yielded so far. */
  datatype Reader = Reader(pending: string, cmds: seq<string>)

  /** One turn of the loop of `get_docker_cmd` (run.py lines 38-46). */
  function Feed(r: Reader, line: string): Reader {
    if Skipped(line) then r
    else if Continues(line) then r.(pending := r.pending + TrimEnd(Strip(line), IsBackslash))
    else Reader([], r.cmds + [r.pending + Strip(line)])
  }

  /** The generator's state after the lines `lines`. */
  function ReadLines(lines: seq<string>): Reader {
    if lines == [] then Reader([], [])
    else Feed(ReadLines(lines[..|lines| - 1]), lines[|lines| - 1])
  }

  /** Everything `get_docker_cmd` yields for a file made of `lines`. */
  function Commands(lines: seq<string>): seq<string> {
    ReadLines(lines).cmds
  }

  /** `get_docker_cmd` over the contents `text` of the Dockerfile. */
  method DockerCommands(text: string) returns (cmds: seq<string>)
    ensures cmds == Commands(FileLines(text))
  {
    var lines := FileLines(text);
    var prevLines := "";
    cmds := [];
    for i := 0 to |lines|
      invariant ReadLines(lines[..i]) == Reader(prevLines, cmds)
    {
      PrefixStep(lines, i);
      var line := lines[i];
      if StartsWith(line, "#") || Strip(line) == [] {
        // comments and blank lines
      } else if EndsWith(line, "\\\n") {
        prevLines := prevLines + TrimEnd(Strip(line), IsBackslash);
      } else {
        cmds := cmds + [prevLines + Strip(line)];
        prevLines := "";
      }
    }
    WholePrefix(lines);
  }

  // ----- what the generator yields -----

  lemma ReadSnoc(lines: seq<string>, line: string)
    ensures ReadLines(lines + [line]) == Feed(ReadLines(lines), line)
  {
    assert (lines + [line])[..|lines|] == lines;
  }

  /** The number of lines that complete a command. */
  function Completing(lines: seq<string>): nat {
    if lines == [] then 0
    else Completing(lines[..|lines| - 1]) + if Completes(lines[|lines| - 1]) then 1 else 0
  }

  /** One command per completing line: comment, blank and continuation lines
      never yield one. */
  lemma {:induction false} CommandCount(lines: seq<string>)
    ensures |Commands(lines)| == Completing(lines)
  {
    if lines != [] {
      CommandCount(lines[..|lines| - 1]);
    }
  }

  predicate Kept(line: string) { !Skipped(line) }

  /** The lines that are neither comments nor blank. */
  function Significant(lines: seq<string>): (r: seq<string>)
    ensures forall i :: 0 <= i < |r| ==> !Skipped(r[i])
  {
    Filter(lines, Kept)
  }

  lemma FeedSkipped(r: Reader, line: string)
    requires Skipped(line)
    ensures Feed(r, line) == r
  {
  }

  /** Comment and blank lines play no part, even between the lines of one
      continued command. */
  lemma {:induction false} SkippedLinesIgnored(lines: seq<string>)
    ensures ReadLines(Significant(lines)) == ReadLines(lines)
  {
    if lines != [] {
      var front, last := lines[..|lines| - 1], lines[|lines| - 1];
      SkippedLinesIgnored(front);
      LastSplit(lines);
      FilterSnoc(front, last, Kept);
      if Skipped(last) {
        assert Filter(front, Kept) + [] == Filter(front, Kept);
        FeedSkipped(ReadLines(front), last);
      } else {
        ReadSnoc(Significant(front), last);
      }
    }
  }

  lemma FeedKeepsCommands(r: Reader, line: string)
    requires !Completes(line)
    ensures Feed(r, line).cmds == r.cmds
  {
  }

  /** Continuation (or skipped) lines at the end of the file complete nothing:
      their pending text is dropped. */
  lemma {:induction false} TrailingContinuationDropped(lines: seq<string>, tail: seq<string>)
    requires forall i :: 0 <= i < |tail| ==> !Completes(tail[i])
    ensures Commands(lines + tail) == Commands(lines)
    decreases |tail|
  {
    if tail != [] {
      var front, last := tail[..|tail| - 1], tail[|tail| - 1];
      TrailingContinuationDropped(lines, front);
      LastSplit(tail);
      AppendAssoc(lines, front, [last]);
      ReadSnoc(lines + front, last);
      FeedKeepsCommands(ReadLines(lines + front), last);
    } else {
      assert lines + tail == lines;
    }
  }

  /** A command that `split()` can take apart: it starts and ends with a
      character that is not whitespace. */
  predicate Trimmed(c: string) {
    |c| > 0 && !IsSpace(c[0]) && !IsSpace(c[|c| - 1])
  }

  /** What holds of the generator's state at every step. */
  predicate ReaderTrimmed(r: Reader) {
    && (r.pending == [] || !IsSpace(r.pending[0]))
    && forall i :: 0 <= i < |r.cmds| ==> Trimmed(r.cmds[i])
  }

  lemma ContinueTrimmed(pending: string, t: string)
    requires pending == [] || !IsSpace(pending[0])
    requires t != [] && !IsSpace(t[0])
    ensures var p := pending + TrimEnd(t, IsBackslash); p == [] || !IsSpace(p[0])
  {
    var u := TrimEnd(t, IsBackslash);
    if pending == [] {
      assert pending + u == u;
      assert u == [] || u[0] == t[0];
    } else {
      assert (pending + u)[0] == pending[0];
    }
  }

  lemma CompleteTrimmed(cmds: seq<string>, pending: string, t: string)
    requires forall i :: 0 <= i < |cmds| ==> Trimmed(cmds[i])
    requires pending == [] || !IsSpace(pending[0])
    requires t != [] && !IsSpace(t[0]) && !IsSpace(t[|t| - 1])
    ensures forall i :: 0 <= i < |cmds| + 1 ==> Trimmed((cmds + [pending + t])[i])
  {
    var c := pending + t;
    assert c[|c| - 1] == t[|t| - 1];
    assert c[0] == if pending == [] then t[0] else pending[0];
    forall i | 0 <= i < |cmds| + 1 ensures Trimmed((cmds + [c])[i]) {
      if i < |cmds| {
        assert (cmds + [c])[i] == cmds[i];
      }
    }
  }

  lemma FeedTrimmed(r: Reader, line: string)
    requires ReaderTrimmed(r)
    ensures ReaderTrimmed(Feed(r, line))
  {
    if !Skipped(line) {
      var t := Strip(line);
      if Continues(line) {
        ContinueTrimmed(r.pending, t);
      } else {
        CompleteTrimmed(r.cmds, r.pending, t);
      }
    }
  }

  /** Every yielded command is non-blank and trimmed at both ends, so the
      `cmd, *values = cmd.split(maxsplit=2)` of `main` always has a first field. */
  lemma {:induction false} CommandsTrimmed(lines: seq<string>)
    ensures ReaderTrimmed(ReadLines(lines))
  {
    if lines != [] {
      CommandsTrimmed(lines[..|lines| - 1]);
      FeedTrimmed(ReadLines(lines[..|lines| - 1]), lines[|lines| - 1]);
    }
  }
}
