/** The `find similar comments` route: the stripped non-empty lines of the
    comments file, and the first pair `(i, j)` with `i < j`, in the order of
    the double loop, whose similarity is the largest and above -1. The
    similarity of two comments is a parameter; the embedding model and the
    cosine it computes are not part of this model. */
module Similar {
  import opened Base
  import opened Text

  /** `[line.strip() for line in lines if line.strip()]`. */
  function Comments(lines: seq<string>): (cs: seq<string>)
    ensures |cs| <= |lines|
    ensures forall k :: 0 <= k < |cs| ==> cs[k] != []
  {
    NonEmpty(seq(|lines|, k requires 0 <= k < |lines| => Strip(lines[k])))
  }

  /** Every comment is a stripped line: non-empty, with no whitespace at
      either end and no newline. */
  lemma CommentsClean(lines: seq<string>)
    requires forall k :: 0 <= k < |lines| ==> IsLine(lines[k])
    ensures forall k :: 0 <= k < |Comments(lines)| ==>
              var c := Comments(lines)[k];
              c != [] && !IsSpace(c[0]) && !IsSpace(c[|c| - 1]) && '\n' !in c
  {
    var stripped := seq(|lines|, k requires 0 <= k < |lines| => Strip(lines[k]));
    NonEmptyFrom(stripped);
    forall k | 0 <= k < |lines| ensures '\n' !in stripped[k] {
      StripNoNewline(lines[k]);
    }
  }

  /** A line from `readlines` strips to text without a newline. */
  lemma StripNoNewline(line: string)
    requires IsLine(line)
    ensures '\n' !in Strip(line)
  {
    var r := Strip(line);
    StripShape(line);
    var i :| StrippedAt(line, r, i);
    forall k | 0 <= k < |r| ensures r[k] != '\n' {
      assert r[k] == line[i + k];
    }
  }

  /** Pair `(a, b)` comes before pair `(i, j)` in the loop. */
  predicate Earlier(a: int, b: int, i: int, j: int) {
    a < i || (a == i && b < j)
  }

  /** `(i, j)` is the pair the loop keeps: its score beats -1 and every
      other pair's, is equalled by no earlier pair, and `i < j`. */
  ghost predicate FirstBest(cs: seq<string>, score: (string, string) -> real, i: int, j: int) {
    && 0 <= i < j < |cs|
    && score(cs[i], cs[j]) > -1.0
    && (forall a, b :: 0 <= a < b < |cs| ==> score(cs[a], cs[b]) <= score(cs[i], cs[j]))
    && (forall a, b :: 0 <= a < b < |cs| && Earlier(a, b, i, j) ==> score(cs[a], cs[b]) < score(cs[i], cs[j]))
  }

  /** At most one pair is the first best. */
  lemma FirstBestUnique(cs: seq<string>, score: (string, string) -> real, i: int, j: int, i': int, j': int)
    requires FirstBest(cs, score, i, j) && FirstBest(cs, score, i', j')
    ensures i == i' && j == j'
  {
  }

  /** What the loop knows once it has scored every pair before `(i, j)`:
      `maxSim` is the best score so far, or -1 when nothing has beaten -1,
      and `(bi, bj)` is the first pair that reached it. */
  ghost predicate Kept(cs: seq<string>, score: (string, string) -> real, i: int, j: int,
                       found: bool, bi: int, bj: int, maxSim: real) {
    && (found ==> 0 <= bi < bj < |cs| && Earlier(bi, bj, i, j) && maxSim == score(cs[bi], cs[bj]) && maxSim > -1.0)
    && (!found ==> maxSim == -1.0)
    && (forall a, b :: 0 <= a < b < |cs| && Earlier(a, b, i, j) ==> score(cs[a], cs[b]) <= maxSim)
    && (found ==> forall a, b :: 0 <= a < b < |cs| && Earlier(a, b, bi, bj) ==> score(cs[a], cs[b]) < maxSim)
  }

  /** Scoring pair `(i, j)` keeps `Kept`, one pair further on. */
  lemma KeptStep(cs: seq<string>, score: (string, string) -> real, i: int, j: int,
                 found: bool, bi: int, bj: int, maxSim: real)
    requires 0 <= i < j < |cs| && Kept(cs, score, i, j, found, bi, bj, maxSim)
    ensures score(cs[i], cs[j]) > maxSim ==> Kept(cs, score, i, j + 1, true, i, j, score(cs[i], cs[j]))
    ensures score(cs[i], cs[j]) <= maxSim ==> Kept(cs, score, i, j + 1, found, bi, bj, maxSim)
  {
  }

  /** Past the last pair of a row, the next row starts. */
  lemma KeptRow(cs: seq<string>, score: (string, string) -> real, i: int,
                found: bool, bi: int, bj: int, maxSim: real)
    requires 0 <= i < |cs| && Kept(cs, score, i, |cs|, found, bi, bj, maxSim)
    ensures Kept(cs, score, i + 1, i + 2, found, bi, bj, maxSim)
  {
  }

  /** After the last row, the pair kept is the first best one, and nothing
      is kept exactly when no pair beats -1. */
  lemma KeptDone(cs: seq<string>, score: (string, string) -> real,
                 found: bool, bi: int, bj: int, maxSim: real)
    requires Kept(cs, score, |cs|, |cs| + 1, found, bi, bj, maxSim)
    ensures found ==> FirstBest(cs, score, bi, bj)
    ensures !found <==> forall a, b :: 0 <= a < b < |cs| ==> score(cs[a], cs[b]) <= -1.0
  {
    if found {
      assert score(cs[bi], cs[bj]) > -1.0;
    }
  }

  /** The double loop of the route: `max_sim` starts at -1, and a pair
      replaces the best so far only when its score is strictly greater. */
  method MostSimilarPair(cs: seq<string>, score: (string, string) -> real) returns (best: Option<(string, string)>)
    ensures best.Some? ==> exists i, j :: FirstBest(cs, score, i, j) && best.value == (cs[i], cs[j])
    ensures best.None? <==> forall a, b :: 0 <= a < b < |cs| ==> score(cs[a], cs[b]) <= -1.0
  {
    var maxSim := -1.0;
    var found, bi, bj := false, 0, 0;
    for i := 0 to |cs|
      invariant Kept(cs, score, i, i + 1, found, bi, bj, maxSim)
    {
      found, bi, bj, maxSim := ScoreRow(cs, score, i, found, bi, bj, maxSim);
      KeptRow(cs, score, i, found, bi, bj, maxSim);
    }
    KeptDone(cs, score, found, bi, bj, maxSim);
    if found {
      best := Some((cs[bi], cs[bj]));
      assert FirstBest(cs, score, bi, bj) && best.value == (cs[bi], cs[bj]);
    } else {
      best := None;
    }
  }

  /** The inner loop: score `(i, j)` for every `j` after `i`. */
  method ScoreRow(cs: seq<string>, score: (string, string) -> real, i: nat,
                  found0: bool, bi0: int, bj0: int, maxSim0: real)
    returns (found: bool, bi: int, bj: int, maxSim: real)
    requires i < |cs| && Kept(cs, score, i, i + 1, found0, bi0, bj0, maxSim0)
    ensures Kept(cs, score, i, |cs|, found, bi, bj, maxSim)
  {
    found, bi, bj, maxSim := found0, bi0, bj0, maxSim0;
    for j := i + 1 to |cs|
      invariant Kept(cs, score, i, j, found, bi, bj, maxSim)
    {
      KeptStep(cs, score, i, j, found, bi, bj, maxSim);
      var simScore := score(cs[i], cs[j]);
      if simScore > maxSim {
        maxSim := simScore;
        found, bi, bj := true, i, j;
      }
    }
  }

  /** Why the route fails once the comments are read. */
  datatype SimilarFailure = TooFewComments | NoPairAboveMinusOne

  /** What `find_most_similar_comments` promises, from the lines of the
      comments file on: too few comments is one error, no pair above -1
      another, and otherwise the text written to `comments-similar.txt` is
      the two comments of the first best pair joined by a newline. */
  ghost predicate SimilarOutcome(lines: seq<string>, score: (string, string) -> real, r: Result<string, SimilarFailure>) {
    var cs := Comments(lines);
    if |cs| < 2 then r == Err(TooFewComments)
    else if forall a, b :: 0 <= a < b < |cs| ==> score(cs[a], cs[b]) <= -1.0 then r == Err(NoPairAboveMinusOne)
    else r.Ok? && exists i, j :: FirstBest(cs, score, i, j) && r.value == Join([cs[i], cs[j]], '\n')
  }

  /** The outcome is determined by the lines and the scores. */
  lemma SimilarOutcomeUnique(lines: seq<string>, score: (string, string) -> real, r1: Result<string, SimilarFailure>, r2: Result<string, SimilarFailure>)
    requires SimilarOutcome(lines, score, r1) && SimilarOutcome(lines, score, r2)
    ensures r1 == r2
  {
    var cs := Comments(lines);
    if r1.Ok? {
      var i1, j1 :| FirstBest(cs, score, i1, j1) && r1.value == Join([cs[i1], cs[j1]], '\n');
      var i2, j2 :| FirstBest(cs, score, i2, j2) && r2.value == Join([cs[i2], cs[j2]], '\n');
      FirstBestUnique(cs, score, i1, j1, i2, j2);
    }
  }

  /** `find_most_similar_comments` from the lines of the comments file on. */
  method FindMostSimilar(lines: seq<string>, score: (string, string) -> real) returns (r: Result<string, SimilarFailure>)
    ensures SimilarOutcome(lines, score, r)
  {
    var comments := Comments(lines);
    if |comments| < 2 {
      return Err(TooFewComments);
    }
    var best := MostSimilarPair(comments, score);
    if best.None? {
      return Err(NoPairAboveMinusOne);
    }
    ghost var i, j :| FirstBest(comments, score, i, j) && best.value == (comments[i], comments[j]);
    r := Ok(Join([best.value.0, best.value.1], '\n'));
    assert r.value == Join([comments[i], comments[j]], '\n');
  }

  /** Reading `comments-similar.txt` back and splitting it on the newline
      gives the two comments. */
  lemma SimilarOutputRoundTrip(lines: seq<string>, i: nat, j: nat)
    requires forall k :: 0 <= k < |lines| ==> IsLine(lines[k])
    requires i < |Comments(lines)| && j < |Comments(lines)|
    ensures var cs := Comments(lines); Split(Join([cs[i], cs[j]], '\n'), '\n') == [cs[i], cs[j]]
  {
    CommentsClean(lines);
    var cs := Comments(lines);
    SplitJoin([cs[i], cs[j]], '\n');
  }

  /** The search succeeds exactly when there are two comments and some pair
      scores above -1; its text then splits back into the two comments of
      the first best pair. */
  lemma SimilarOutcomeShape(lines: seq<string>, score: (string, string) -> real, r: Result<string, SimilarFailure>)
    requires forall k :: 0 <= k < |lines| ==> IsLine(lines[k])
    requires SimilarOutcome(lines, score, r)
    ensures var cs := Comments(lines);
            r.Ok? <==> |cs| >= 2 && exists a, b :: 0 <= a < b < |cs| && score(cs[a], cs[b]) > -1.0
    ensures r.Ok? ==>
              var cs := Comments(lines);
              exists i, j :: FirstBest(cs, score, i, j) && r.value == Join([cs[i], cs[j]], '\n')
                          && Split(r.value, '\n') == [cs[i], cs[j]]
  {
    var cs := Comments(lines);
    if r.Ok? {
      var i, j :| FirstBest(cs, score, i, j) && r.value == Join([cs[i], cs[j]], '\n');
      SimilarOutputRoundTrip(lines, i, j);
    }
  }
}
