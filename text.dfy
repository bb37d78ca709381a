/** The handful of Python string operations the agent relies on, written out on
    `seq<char>`: `str.isspace`, `strip`, `lstrip(chars)`, ASCII `lower`,
    substring containment, `split(sep)[-1]`, `readlines`, `"\n".join` and
    `str(n)` for a natural number. */
module Text {
  import opened Base

  /** Python's `str.isspace()`: the characters `strip()` removes and the regex
      class `\s` matches in a `str` pattern. */
  predicate IsSpace(c: char) {
    || c == ' '
    || ('\t' <= c <= '\r')
    || ('\U{1c}' <= c <= '\U{1f}')
    || c == '\U{85}' || c == '\U{a0}' || c == '\U{1680}'
    || ('\U{2000}' <= c <= '\U{200a}')
    || c == '\U{2028}' || c == '\U{2029}' || c == '\U{202f}' || c == '\U{205f}' || c == '\U{3000}'
  }

  /** `s.lstrip()`: drop the leading whitespace. */
  function LStrip(s: string): (r: string)
    ensures |r| <= |s|
    ensures r != [] ==> !IsSpace(r[0])
  {
    if s != [] && IsSpace(s[0]) then LStrip(s[1..]) else s
  }

  /** What `lstrip()` keeps is a suffix of the text. */
  lemma {:induction false} LStripSuffix(s: string)
    ensures LStrip(s) == s[|s| - |LStrip(s)|..]
  {
    if s != [] && IsSpace(s[0]) {
      LStripSuffix(s[1..]);
    }
  }

  /** What `lstrip()` drops is whitespace. */
  lemma {:induction false} LStripDropsSpace(s: string)
    ensures forall i :: 0 <= i < |s| - |LStrip(s)| ==> IsSpace(s[i])
  {
    if s != [] && IsSpace(s[0]) {
      LStripDropsSpace(s[1..]);
      assert forall i :: 1 <= i < |s| ==> s[1..][i - 1] == s[i];
    }
  }

  /** `s.rstrip()`: drop the trailing whitespace. */
  function RStrip(s: string): (r: string)
    ensures |r| <= |s|
    ensures r != [] ==> !IsSpace(r[|r| - 1])
  {
    if s != [] && IsSpace(s[|s| - 1]) then RStrip(s[..|s| - 1]) else s
  }

  /** What `rstrip()` keeps is a prefix of the text. */
  lemma {:induction false} RStripPrefix(s: string)
    ensures RStrip(s) == s[..|RStrip(s)|]
  {
    if s != [] && IsSpace(s[|s| - 1]) {
      RStripPrefix(s[..|s| - 1]);
    }
  }

  /** `rstrip()` keeps a first character that is not whitespace. */
  lemma {:induction false} RStripKeepsFirst(s: string)
    requires s != [] && !IsSpace(s[0])
    ensures RStrip(s) != [] && RStrip(s)[0] == s[0]
    decreases |s|
  {
    if IsSpace(s[|s| - 1]) {
      RStripKeepsFirst(s[..|s| - 1]);
    }
  }

  /** What `rstrip()` drops is whitespace. */
  lemma {:induction false} RStripDropsSpace(s: string)
    ensures forall i :: |RStrip(s)| <= i < |s| ==> IsSpace(s[i])
  {
    if s != [] && IsSpace(s[|s| - 1]) {
      RStripDropsSpace(s[..|s| - 1]);
    }
  }

  /** `r` is `s[i..]` cut short, with only whitespace around it in `s`. */
  ghost predicate StrippedAt(s: string, r: string, i: int) {
    && 0 <= i <= |s| - |r| && r == s[i..i + |r|]
    && (forall k :: 0 <= k < i ==> IsSpace(s[k]))
    && (forall k :: i + |r| <= k < |s| ==> IsSpace(s[k]))
  }

  /** `s.strip()`: the text between the leading and the trailing whitespace. */
  function Strip(s: string): (r: string)
    ensures |r| <= |s|
    ensures r != [] ==> !IsSpace(r[0]) && !IsSpace(r[|r| - 1])
  {
    RStripPrefix(LStrip(s));
    RStrip(LStrip(s))
  }

  /** `strip()` keeps a stretch of the text and drops only whitespace around
      it. */
  lemma StripShape(s: string)
    ensures exists i :: StrippedAt(s, Strip(s), i)
  {
    var l := LStrip(s);
    var r := RStrip(l);
    var i := |s| - |l|;
    LStripDropsSpace(s);
    RStripDropsSpace(l);
    LStripSuffix(s);
    RStripPrefix(l);
    assert r == s[i..i + |r|];
    forall k | i + |r| <= k < |s| ensures IsSpace(s[k]) {
      assert s[k] == l[k - i];
    }
    assert StrippedAt(s, r, i) && Strip(s) == r;
  }

  /** Stripping a line whose text has no surrounding whitespace leaves that
      text, with or without its newline. */
  lemma StripTerminated(s: string)
    requires s != [] && !IsSpace(s[0]) && !IsSpace(s[|s| - 1])
    ensures Strip(s + "\n") == s
    ensures Strip(s) == s
  {
    var t := s + "\n";
    assert t[0] == s[0] && IsSpace(t[|t| - 1]);
    assert LStrip(t) == t;
    assert t[..|s|] == s;
    assert RStrip(t) == RStrip(s);
  }

  /** `s.lstrip(c)` for a single character `c`. */
  function LStripChar(s: string, c: char): (r: string)
    ensures |r| <= |s|
    ensures r != [] ==> r[0] != c
    ensures forall i :: 0 <= i < |s| - |r| ==> s[i] == c
  {
    if s != [] && s[0] == c then LStripChar(s[1..], c) else s
  }

  /** What `lstrip(c)` keeps is a suffix of the text. */
  lemma {:induction false} LStripCharSuffix(s: string, c: char)
    ensures LStripChar(s, c) == s[|s| - |LStripChar(s, c)|..]
  {
    if s != [] && s[0] == c {
      LStripCharSuffix(s[1..], c);
    }
  }

  /** `str.lower()` restricted to ASCII letters. */
  function LowerChar(c: char): char {
    if 'A' <= c <= 'Z' then (c as int + 32) as char else c
  }

  /** Lower-casing leaves no upper-case ASCII letter, maps each to the
      lower-case letter of the same place in the alphabet, and keeps every
      other character. */
  function Lower(s: string): (r: string)
    ensures |r| == |s|
    ensures forall i :: 0 <= i < |r| ==> !('A' <= r[i] <= 'Z')
    ensures forall i :: 0 <= i < |s| && 'A' <= s[i] <= 'Z' ==> r[i] as int - 'a' as int == s[i] as int - 'A' as int
    ensures forall i :: 0 <= i < |s| && !('A' <= s[i] <= 'Z') ==> r[i] == s[i]
  {
    seq(|s|, i requires 0 <= i < |s| => LowerChar(s[i]))
  }

  /** `p` occurs in `t` at index `i`. */
  predicate OccursAt(t: string, p: string, i: int) {
    0 <= i && i + |p| <= |t| && t[i..i + |p|] == p
  }

  /** The first index at which `p` occurs in `t`, as `str.find` computes it. */
  function Find(t: string, p: string): (r: Option<nat>)
    ensures r.Some? ==> OccursAt(t, p, r.value) && forall j :: 0 <= j < r.value ==> !OccursAt(t, p, j)
    ensures r.None? ==> forall j :: !OccursAt(t, p, j)
  {
    if |t| < |p| then
      None
    else if t[..|p|] == p then
      Some(0)
    else
      match Find(t[1..], p)
      case None =>
        assert forall j :: 1 <= j ==> (OccursAt(t, p, j) <==> OccursAt(t[1..], p, j - 1));
        None
      case Some(k) =>
        assert forall j :: 1 <= j ==> (OccursAt(t, p, j) <==> OccursAt(t[1..], p, j - 1));
        Some(k + 1)
  }

  /** Python's `p in t`. */
  predicate Contains(t: string, p: string) {
    Find(t, p).Some?
  }

  lemma ContainsIff(t: string, p: string)
    ensures Contains(t, p) <==> exists i :: OccursAt(t, p, i)
  {
    if Find(t, p).Some? {
      assert OccursAt(t, p, Find(t, p).value);
    }
  }

  /** `t.split(sep)[-1]`: the piece after the last separator that `split`
      finds scanning left to right, or all of `t` when `sep` does not occur. */
  function LastPiece(t: string, sep: string): (r: string)
    requires sep != []
    ensures |r| <= |t| && r == t[|t| - |r|..]
    ensures !Contains(r, sep)
    ensures !Contains(t, sep) ==> r == t
    ensures Contains(t, sep) ==> EndsWith(t[..|t| - |r|], sep)
    decreases |t|
  {
    match Find(t, sep)
    case None => t
    case Some(i) =>
      var rest := t[i + |sep|..];
      var r := LastPiece(rest, sep);
      LastPieceStep(t, sep, i, r);
      r
  }

  lemma LastPieceStep(t: string, sep: string, i: nat, r: string)
    requires OccursAt(t, sep, i)
    requires |r| <= |t| - i - |sep| && r == t[|t| - |r|..]
    requires Contains(t[i + |sep|..], sep) ==> EndsWith(t[i + |sep|..][..|t| - i - |sep| - |r|], sep)
    requires !Contains(t[i + |sep|..], sep) ==> |r| == |t| - i - |sep|
    ensures EndsWith(t[..|t| - |r|], sep)
  {
    var n := |t| - |r|;
    if Contains(t[i + |sep|..], sep) {
      var rest := t[i + |sep|..];
      var m := |rest| - |r|;
      assert rest[..m][m - |sep|..] == sep;
      assert t[..n][n - |sep|..] == rest[..m][m - |sep|..];
    } else {
      assert t[..n][n - |sep|..] == t[i..i + |sep|];
    }
  }

  predicate EndsWith(s: string, suffix: string) {
    |suffix| <= |s| && s[|s| - |suffix|..] == suffix
  }

  /** The index of the first `c` in `s`, or `|s|` when there is none. */
  function IndexOf(s: string, c: char): (i: nat)
    ensures i <= |s|
    ensures i < |s| ==> s[i] == c
    ensures forall k :: 0 <= k < i ==> s[k] != c
  {
    if s == [] || s[0] == c then 0 else 1 + IndexOf(s[1..], c)
  }

  function Concat(ls: seq<string>): string {
    if ls == [] then [] else ls[0] + Concat(ls[1..])
  }

  /** A line as `readlines()` returns it in text mode: non-empty, with a
      newline at most as its last character. */
  predicate IsLine(l: string) {
    l != [] && forall i :: 0 <= i < |l| - 1 ==> l[i] != '\n'
  }

  /** What reading a file in text mode returns for its decoded content `s`:
      Python's universal newlines turn `"\r\n"`, and a lone `'\r'`, into
      `'\n'`. */
  function Newlines(s: string): (r: string)
    ensures '\r' !in r
    ensures |r| <= |s|
    decreases |s|
  {
    if s == [] then []
    else if s[0] == '\r' then "\n" + Newlines(if |s| > 1 && s[1] == '\n' then s[2..] else s[1..])
    else [s[0]] + Newlines(s[1..])
  }

  /** Text without a carriage return passes through unchanged. */
  lemma {:induction false} NewlinesPlain(a: string, b: string)
    requires '\r' !in a
    ensures Newlines(a + b) == a + Newlines(b)
    decreases |a|
  {
    if a == [] {
      assert a + b == b;
    } else {
      assert a[0] in a;
      assert (a + b)[1..] == a[1..] + b;
      NewlinesPlain(a[1..], b);
      assert a == [a[0]] + a[1..];
    }
  }

  /** A carriage return not followed by a newline reads as a newline. */
  lemma NewlinesReturn(t: string)
    requires t == [] || t[0] != '\n'
    ensures Newlines("\r" + t) == "\n" + Newlines(t)
  {
    assert ("\r" + t)[1..] == t;
  }

  /** A carriage return followed by a newline reads as one newline. */
  lemma NewlinesReturnNewline(t: string)
    ensures Newlines("\r\n" + t) == "\n" + Newlines(t)
  {
    assert ("\r\n" + t)[2..] == t;
  }

  /** A text with a `"\r\n"` ending and a lone `'\r'` ending reads with two
      newlines. */
  lemma TwoEndings(a: string, b: string, c: string)
    requires '\r' !in a && '\r' !in b && '\r' !in c
    requires c == [] || c[0] != '\n'
    ensures Newlines(a + "\r\n" + b + "\r" + c) == a + "\n" + b + "\n" + c
  {
    var x3 := "\r" + c;
    var x2 := b + x3;
    var x1 := "\r\n" + x2;
    var y3 := "\n" + c;
    var y2 := b + y3;
    var y1 := "\n" + y2;
    NewlinesPlain(c, []);
    assert c + [] == c;
    NewlinesReturn(c);
    assert Newlines(x3) == y3;
    NewlinesPlain(b, x3);
    assert Newlines(x2) == y2;
    NewlinesReturnNewline(x2);
    assert Newlines(x1) == y1;
    NewlinesPlain(a, x1);
    assert Newlines(a + x1) == a + y1;
    JoinedThree(a, b, c);
  }

  lemma JoinedThree(a: string, b: string, c: string)
    ensures a + "\r\n" + b + "\r" + c == a + ("\r\n" + (b + ("\r" + c)))
    ensures a + "\n" + b + "\n" + c == a + ("\n" + (b + ("\n" + c)))
  {
  }

  /** Three lines with those endings read as three lines. */
  lemma ThreeLinesRead(a: string, b: string, c: string)
    requires '\r' !in a && '\r' !in b && '\r' !in c
    requires '\n' !in a && '\n' !in b && '\n' !in c && c != []
    ensures ReadLines(Newlines(a + "\r\n" + b + "\r" + c)) == [a + "\n", b + "\n", c]
  {
    TwoEndings(a, b, c);
    ThreeLines(a, b, c);
  }

  lemma ThreeLines(a: string, b: string, c: string)
    requires '\n' !in a && '\n' !in b && '\n' !in c && c != []
    ensures ReadLines(a + "\n" + b + "\n" + c) == [a + "\n", b + "\n", c]
  {
    var tail := b + "\n" + c;
    assert a + "\n" + b + "\n" + c == a + "\n" + tail;
    ReadLinesCons(a, tail);
    ReadLinesCons(b, c);
    IndexOfAbsent(c, '\n');
    assert ReadLines(c) == [c];
  }

  /** Translating twice is translating once. */
  lemma NewlinesIdempotent(s: string)
    ensures Newlines(Newlines(s)) == Newlines(s)
  {
    NewlinesPlain(Newlines(s), []);
    assert Newlines(s) + [] == Newlines(s);
  }

  /** Each of the three line endings ends a line. */
  lemma NewlinesEndings(s: string)
    requires s == "a\r\nb\rc\nd"
    ensures Newlines(s) == "a\nb\nc\nd"
  {
    var c := "c\nd";
    assert '\r' !in c by { assert forall k :: 0 <= k < |c| ==> c[k] != '\r'; }
    assert s == "a" + "\r\n" + "b" + "\r" + c;
    TwoEndings("a", "b", c);
    assert "a" + "\n" + "b" + "\n" + c == "a\nb\nc\nd";
  }

  /** `readlines()` of the text `s` a text-mode read returns: each line keeps
      its terminating newline; the last line may lack one. */
  function ReadLines(s: string): (ls: seq<string>)
    ensures Concat(ls) == s
    ensures forall k :: 0 <= k < |ls| ==> IsLine(ls[k])
    ensures forall k :: 0 <= k < |ls| - 1 ==> ls[k] != [] && ls[k][|ls[k]| - 1] == '\n'
    ensures |ls| <= |s|
    decreases |s|
  {
    if s == [] then []
    else
      var i := IndexOf(s, '\n');
      if i == |s| then
        assert Concat([s]) == s + Concat([]);
        [s]
      else
        var rest := ReadLines(s[i + 1..]);
        assert Concat([s[..i + 1]] + rest) == s[..i + 1] + Concat(rest) by {
          assert ([s[..i + 1]] + rest)[1..] == rest;
        }
        [s[..i + 1]] + rest
  }

  /** A line ending in a newline is read as one line, and reading goes on
      after it. */
  lemma ReadLinesCons(line: string, rest: string)
    requires '\n' !in line
    ensures ReadLines(line + "\n" + rest) == [line + "\n"] + ReadLines(rest)
  {
    var s := line + "\n" + rest;
    IndexOfPrefix(line, "\n" + rest, '\n');
    assert s == line + ("\n" + rest);
    assert s[..|line| + 1] == line + "\n";
    assert s[|line| + 1..] == rest;
  }

  /** `"\n".join(ls)` with any separator character. */
  function Join(ls: seq<string>, c: char): string {
    if |ls| == 0 then []
    else if |ls| == 1 then ls[0]
    else ls[0] + [c] + Join(ls[1..], c)
  }

  /** `s.split(c)`: the pieces between the separators, always at least one. */
  function Split(s: string, c: char): (ps: seq<string>)
    ensures |ps| >= 1
    decreases |s|
  {
    var i := IndexOf(s, c);
    if i == |s| then [s] else [s[..i]] + Split(s[i + 1..], c)
  }

  /** Splitting a join on its separator gives the pieces back, provided none
      of them contains the separator and there is at least one piece. */
  lemma {:induction false} SplitJoin(ls: seq<string>, c: char)
    requires |ls| >= 1
    requires forall k :: 0 <= k < |ls| ==> c !in ls[k]
    ensures Split(Join(ls, c), c) == ls
    decreases |ls|
  {
    if |ls| == 1 {
      IndexOfAbsent(ls[0], c);
    } else {
      var head, tail := ls[0], ls[1..];
      var rest := Join(tail, c);
      var s := head + ([c] + rest);
      assert Join(ls, c) == s;
      IndexOfPrefix(head, [c] + rest, c);
      assert s[..|head|] == head && s[|head| + 1..] == rest;
      assert Split(s, c) == [head] + Split(rest, c);
      SplitJoin(tail, c);
      assert ls == [head] + tail;
    }
  }

  lemma IndexOfAbsent(s: string, c: char)
    requires c !in s
    ensures IndexOf(s, c) == |s|
  {
  }

  lemma {:induction false} IndexOfPrefix(a: string, b: string, c: char)
    requires c !in a && b != [] && b[0] == c
    ensures IndexOf(a + b, c) == |a|
    decreases |a|
  {
    if a != [] {
      assert (a + b)[1..] == a[1..] + b;
      IndexOfPrefix(a[1..], b, c);
    }
  }

  predicate IsDigit(c: char) { '0' <= c <= '9' }

  function DigitValue(c: char): nat
    requires IsDigit(c)
  {
    c as int - '0' as int
  }

  /** `str(n)` for a natural number: its decimal digits. */
  function DecimalString(n: nat): (s: string)
    ensures s != [] && forall i :: 0 <= i < |s| ==> IsDigit(s[i])
    ensures |s| > 1 ==> s[0] != '0'
  {
    var d := ('0' as int + n % 10) as char;
    if n < 10 then [d] else DecimalString(n / 10) + [d]
  }

  /** The value of a non-empty string of decimal digits. */
  function DecimalValue(s: string): nat
    requires forall i :: 0 <= i < |s| ==> IsDigit(s[i])
  {
    if s == [] then 0 else 10 * DecimalValue(s[..|s| - 1]) + DigitValue(s[|s| - 1])
  }

  /** What the counting operation writes reads back as the count. */
  lemma {:induction false} DecimalRoundTrip(n: nat)
    ensures DecimalValue(DecimalString(n)) == n
  {
    if n >= 10 {
      DecimalRoundTrip(n / 10);
      var s := DecimalString(n);
      assert s[..|s| - 1] == DecimalString(n / 10);
    }
  }

  /** The indices of the elements of `s` that satisfy `p`. */
  ghost function IndicesWhere<T>(s: seq<T>, p: T -> bool): set<int> {
    set i | 0 <= i < |s| && p(s[i])
  }

  /** Adding an element at the end adds its index when it satisfies `p`. */
  lemma IndicesWhereSnoc<T>(s: seq<T>, p: T -> bool)
    requires s != []
    ensures var last := |s| - 1;
            |IndicesWhere(s, p)| == |IndicesWhere(s[..last], p)| + if p(s[last]) then 1 else 0
  {
    var last := |s| - 1;
    var before := IndicesWhere(s[..last], p);
    var extra := if p(s[last]) then {last} else {};
    assert IndicesWhere(s, p) == before + extra by {
      forall i ensures i in IndicesWhere(s, p) <==> i in before + extra {
        if 0 <= i < last {
          assert s[..last][i] == s[i];
        }
      }
    }
    assert last !in before;
  }

  /** The non-empty lines of `ls`, in order. */
  function NonEmpty(ls: seq<string>): (kept: seq<string>)
    ensures |kept| <= |ls|
    ensures forall k :: 0 <= k < |kept| ==> kept[k] != []
  {
    if ls == [] then []
    else
      var last := ls[|ls| - 1];
      NonEmpty(ls[..|ls| - 1]) + if last != [] then [last] else []
  }

  lemma NonEmptySnoc(ls: seq<string>, i: nat)
    requires i < |ls|
    ensures NonEmpty(ls[..i + 1]) == NonEmpty(ls[..i]) + if ls[i] != [] then [ls[i]] else []
  {
    assert ls[..i + 1][..i] == ls[..i];
  }

  /** Filtering keeps the order: the kept lines of two parts are the kept
      lines of the first followed by those of the second. */
  lemma {:induction false} NonEmptyConcat(a: seq<string>, b: seq<string>)
    ensures NonEmpty(a + b) == NonEmpty(a) + NonEmpty(b)
    decreases |b|
  {
    if b == [] {
      assert a + b == a;
    } else {
      var init := b[..|b| - 1];
      assert (a + b)[..|a + b| - 1] == a + init;
      NonEmptyConcat(a, init);
    }
  }

  /** Filtering keeps a sequence without empty lines whole. */
  lemma {:induction false} NonEmptyAllKept(ls: seq<string>)
    requires forall k :: 0 <= k < |ls| ==> ls[k] != []
    ensures NonEmpty(ls) == ls
  {
    if ls != [] {
      var init := ls[..|ls| - 1];
      NonEmptyAllKept(init);
      assert ls == init + [ls[|ls| - 1]];
    }
  }

  /** Filtering a sequence of empty lines leaves nothing. */
  lemma {:induction false} NonEmptyNoneKept(ls: seq<string>)
    requires forall k :: 0 <= k < |ls| ==> ls[k] == []
    ensures NonEmpty(ls) == []
  {
    if ls != [] {
      NonEmptyNoneKept(ls[..|ls| - 1]);
    }
  }

  /** Filtering adds nothing: every line kept is a line of the input. */
  lemma {:induction false} NonEmptyFrom(ls: seq<string>)
    ensures forall k :: 0 <= k < |NonEmpty(ls)| ==> NonEmpty(ls)[k] in ls
  {
    if ls != [] {
      var last := ls[|ls| - 1];
      var init := ls[..|ls| - 1];
      NonEmptyFrom(init);
      var rest, extra := NonEmpty(init), if last != [] then [last] else [];
      assert NonEmpty(ls) == rest + extra;
      forall k | 0 <= k < |rest + extra| ensures (rest + extra)[k] in ls {
        if k < |rest| {
          var x := rest[k];
          assert x in init;
          var j :| 0 <= j < |init| && init[j] == x;
          assert ls[j] == x;
        } else {
          assert (rest + extra)[k] == ls[|ls| - 1];
        }
      }
    }
  }

  /** Of three lines, a blank one in the middle is dropped. */
  lemma DropsBlankMiddle(x: string, y: string, z: string)
    requires x != [] && y == [] && z != []
    ensures NonEmpty([x, y, z]) == [x, z]
  {
    var ls := [x, y, z];
    assert ls[..2] == [x, y] && [x, y][..1] == [x] && [x][..0] == [];
    assert NonEmpty([x]) == [x];
    assert NonEmpty([x, y]) == [x];
  }
}
