/** The `extract_recent_logs` action: the `.log` files of the logs directory
    sorted by modification time, most recent first (`sorted(...,
    reverse=True)`, which keeps files with equal times in glob order), the
    first ten taken, the first line of each read and stripped, and the
    non-empty ones joined with newlines. */
module Logs {
  import opened Text
  import opened Sorting

  /** A log file as the glob yields it: its modification time and its text. */
  datatype LogFile = LogFile(mtime: int, content: string)

  /** How many files the action reads at most. */
  const Limit := 10

  /** Where `f.readline()` stops: just past the first newline, or at the end
      of the text when there is none. */
  function LineEnd(s: string): (n: nat)
    ensures n <= |s|
  {
    if s == [] then 0
    else if s[0] == '\n' then 1
    else 1 + LineEnd(s[1..])
  }

  /** `f.readline()` on a text-mode file: the text up to and including the
      first newline, or all of it when there is none. */
  function ReadLine(s: string): (r: string)
    ensures |r| <= |s|
  {
    s[..LineEnd(s)]
  }

  /** The line read holds a newline at most as its last character, and it
      stops short of the end of the text only at a newline. */
  lemma {:induction false} ReadLineShape(s: string)
    ensures forall k :: 0 <= k < |ReadLine(s)| - 1 ==> ReadLine(s)[k] != '\n'
    ensures |ReadLine(s)| < |s| ==> ReadLine(s) != [] && ReadLine(s)[|ReadLine(s)| - 1] == '\n'
  {
    if s != [] && s[0] != '\n' {
      ReadLineShape(s[1..]);
      assert ReadLine(s) == [s[0]] + ReadLine(s[1..]);
    }
  }

  /** `readline()` reads the first of the lines `readlines()` would give. */
  lemma ReadLineFirst(s: string)
    requires s != []
    ensures ReadLine(s) == ReadLines(s)[0]
  {
    LineEndIndexOf(s);
  }

  lemma {:induction false} LineEndIndexOf(s: string)
    ensures LineEnd(s) == if IndexOf(s, '\n') < |s| then IndexOf(s, '\n') + 1 else |s|
  {
    if s != [] && s[0] != '\n' {
      LineEndIndexOf(s[1..]);
    }
  }

  /** A stripped line holds no newline when the line had one at most at its
      end. */
  /** Stripping adds no character, a carriage return in particular. */
  lemma StripNoReturn(l: string)
    requires '\r' !in l
    ensures '\r' !in Strip(l)
  {
    var r := Strip(l);
    StripShape(l);
    var i :| StrippedAt(l, r, i);
    forall k | 0 <= k < |r| ensures r[k] != '\r' {
      assert r[k] == l[i + k];
    }
  }

  lemma StripLine(l: string)
    requires forall k :: 0 <= k < |l| - 1 ==> l[k] != '\n'
    ensures '\n' !in Strip(l)
  {
    var r := Strip(l);
    StripShape(l);
    var i :| StrippedAt(l, r, i);
    forall k | 0 <= k < |r| ensures r[k] != '\n' {
      assert r[k] == l[i + k];
      if i + k == |l| - 1 {
        assert k == |r| - 1;
        assert IsSpace('\n');
      }
    }
  }

  /** The stripped first line of a file opened in text mode, what the loop
      looks at: a carriage return ends the line as a newline does. */
  function FirstLine(f: LogFile): (r: string)
    ensures '\n' !in r && '\r' !in r
    ensures r != [] ==> !IsSpace(r[0]) && !IsSpace(r[|r| - 1])
  {
    var text := Newlines(f.content);
    ReadLineShape(text);
    StripLine(ReadLine(text));
    assert '\r' !in ReadLine(text) by { assert forall k :: 0 <= k < |ReadLine(text)| ==> ReadLine(text)[k] == text[k]; }
    StripNoReturn(ReadLine(text));
    Strip(ReadLine(text))
  }

  /** Newer first: the order `reverse=True` sorts modification times in. */
  predicate Newer(a: int, b: int) {
    a > b
  }

  lemma NewerIsOrder()
    ensures StrictTotalOrder(Newer)
  {
  }

  function Mtimes(files: seq<LogFile>): (ts: seq<int>)
    ensures |ts| == |files| && forall k :: 0 <= k < |files| ==> ts[k] == files[k].mtime
  {
    seq(|files|, k requires 0 <= k < |files| => files[k].mtime)
  }

  /** The order the sort puts the files in, as indices into `files`. */
  function RecentOrder(files: seq<LogFile>): (order: seq<nat>)
    ensures StablySorted(Mtimes(files), Newer, order)
    ensures Indexes(files, order) && |order| == |files|
  {
    NewerIsOrder();
    StableSort(Mtimes(files), Newer)
  }

  /** `log_files[:10]`: the files the loop reads. */
  function RecentFiles(files: seq<LogFile>): (top: seq<LogFile>)
    ensures |top| <= Limit && |top| <= |files|
    ensures |top| == if |files| < Limit then |files| else Limit
  {
    var order := RecentOrder(files);
    var n := if |order| < Limit then |order| else Limit;
    Arrange(files, order)[..n]
  }

  /** The stripped first line of each file of `top`. */
  function FirstLines(top: seq<LogFile>): (ls: seq<string>)
    ensures |ls| == |top| && forall k :: 0 <= k < |top| ==> ls[k] == FirstLine(top[k])
  {
    seq(|top|, k requires 0 <= k < |top| => FirstLine(top[k]))
  }

  /** The lines the action writes: the non-empty stripped first lines of the
      ten most recent files. */
  function RecentLines(files: seq<LogFile>): seq<string> {
    NonEmpty(FirstLines(RecentFiles(files)))
  }

  /** The loop of the action over the ten most recent files: read each
      first line, strip it, and keep it when it is not empty. */
  method ExtractRecentLogs(files: seq<LogFile>) returns (lines: seq<string>)
    ensures lines == RecentLines(files)
  {
    var top := RecentFiles(files);
    ghost var firsts := FirstLines(top);
    lines := [];
    for i := 0 to |top|
      invariant lines == NonEmpty(firsts[..i])
    {
      NonEmptySnoc(firsts, i);
      var firstLine := FirstLine(top[i]);
      if firstLine != [] {
        lines := lines + [firstLine];
      }
    }
    assert firsts[..|top|] == firsts;
  }

  /** A line as it may appear in the output: non-empty, without a newline,
      and with no whitespace at either end. */
  predicate Clean(l: string) {
    l != [] && '\n' !in l && !IsSpace(l[0]) && !IsSpace(l[|l| - 1])
  }

  /** Each non-empty stripped first line is clean. */
  lemma FirstLinesClean(top: seq<LogFile>)
    ensures forall k :: 0 <= k < |top| && FirstLines(top)[k] != [] ==> Clean(FirstLines(top)[k])
  {
  }

  /** Filtering clean-or-empty lines leaves only clean ones. */
  lemma NonEmptyClean(ls: seq<string>)
    requires forall k :: 0 <= k < |ls| && ls[k] != [] ==> Clean(ls[k])
    ensures forall k :: 0 <= k < |NonEmpty(ls)| ==> Clean(NonEmpty(ls)[k])
  {
    NonEmptyFrom(ls);
  }

  /** Every line the action writes is clean. */
  lemma RecentLinesClean(files: seq<LogFile>)
    ensures forall k :: 0 <= k < |RecentLines(files)| ==> Clean(RecentLines(files)[k])
  {
    FirstLinesClean(RecentFiles(files));
    NonEmptyClean(FirstLines(RecentFiles(files)));
  }

  /** The output never has more than ten lines. */
  lemma AtMostTen(files: seq<LogFile>)
    ensures |RecentLines(files)| <= Limit && |RecentLines(files)| <= |files|
  {
  }

  /** The files read are the most recent ones, newest first: each is at least
      as new as the next, and at least as new as every file left unread;
      files with equal times come in glob order. */
  lemma RecentFilesAreNewest(files: seq<LogFile>, p: nat, q: nat)
    requires p < q < |files|
    ensures var order := RecentOrder(files);
            && files[order[q]].mtime <= files[order[p]].mtime
            && (files[order[q]].mtime == files[order[p]].mtime ==> order[p] < order[q])
    ensures p < Limit ==> RecentFiles(files)[p] == files[RecentOrder(files)[p]]
  {
    NewerIsOrder();
    var order := RecentOrder(files);
    StablyOrdered(Mtimes(files), Newer, order, p, q);
    if p < Limit {
      ArrangeAt(files, order, p);
    }
  }

  /** The text written to `logs-recent.txt`; reading it back and splitting on
      newlines gives the lines, as long as there is at least one. */
  lemma OutputRoundTrip(files: seq<LogFile>)
    requires RecentLines(files) != []
    ensures Split(Join(RecentLines(files), '\n'), '\n') == RecentLines(files)
  {
    RecentLinesClean(files);
    SplitJoin(RecentLines(files), '\n');
  }

  /** `readline()` stops at the first newline. */
  lemma {:induction false} ReadLineStops(text: string, rest: string)
    requires '\n' !in text
    ensures ReadLine(text + "\n" + rest) == text + "\n"
  {
    LineEndStops(text, rest);
    assert (text + "\n" + rest)[..|text| + 1] == text + "\n";
  }

  lemma {:induction false} LineEndStops(text: string, rest: string)
    requires '\n' !in text
    ensures LineEnd(text + "\n" + rest) == |text| + 1
  {
    if text != [] {
      assert (text + "\n" + rest)[1..] == text[1..] + "\n" + rest;
      LineEndStops(text[1..], rest);
    }
  }

  /** A blank line strips to nothing. */
  lemma StripBlank(s: string)
    requires forall k :: 0 <= k < |s| ==> IsSpace(s[k])
    ensures Strip(s) == []
  {
    var r := Strip(s);
    StripShape(s);
    var i :| StrippedAt(s, r, i);
  }

  /** A file whose first line is text with no surrounding whitespace yields
      that text, whichever of the three line endings follows it. */
  lemma FirstLineOfText(t: int, text: string, ending: string, rest: string)
    requires '\n' !in text && '\r' !in text && text != [] && !IsSpace(text[0]) && !IsSpace(text[|text| - 1])
    requires ending == "\n" || ending == "\r" || ending == "\r\n"
    ensures FirstLine(LogFile(t, text + ending + rest)) == text
  {
    var tail := FirstLineBreak(text, ending, rest);
    ReadLineStops(text, tail);
    StripTerminated(text);
  }

  /** Translated, a text followed by a line ending reads as the text, a
      newline, and whatever comes after. */
  lemma FirstLineBreak(text: string, ending: string, rest: string) returns (tail: string)
    requires '\r' !in text
    requires ending == "\n" || ending == "\r" || ending == "\r\n"
    ensures Newlines(text + ending + rest) == text + "\n" + tail
  {
    assert text + ending + rest == text + (ending + rest);
    NewlinesPlain(text, ending + rest);
    var after := Newlines(ending + rest);
    assert (ending + rest)[0] == ending[0];
    assert after != [] && after[0] == '\n';
    tail := after[1..];
    assert after == "\n" + tail;
  }

  /** A file whose first line is blank yields nothing. */
  lemma FirstLineOfBlank(t: int, blank: string, rest: string)
    requires forall k :: 0 <= k < |blank| ==> blank[k] == ' '
    ensures FirstLine(LogFile(t, blank + "\n" + rest)) == []
  {
    var tail := FirstLineBreak(blank, "\n", rest);
    ReadLineStops(blank, tail);
    StripBlank(blank + "\n");
  }

  /** A lone carriage return ends the first line: `"a\rb\n"` yields `"a"`. */
  lemma FirstLineAtReturn(t: int)
    ensures FirstLine(LogFile(t, "a\rb\n")) == "a"
  {
    FirstLineOfText(t, "a", "\r", "b\n");
    assert "a" + "\r" + "b\n" == "a\rb\n";
  }
}
