/** The `create_markdown_index` action: for each Markdown file found under
    the docs directory, the title is taken from the first line that is a
    heading once stripped, with its leading `#` marks and the whitespace
    around them removed; a file without a heading is titled by its file name
    without the suffix. The index is a dictionary keyed by file name, so a
    later file with the same name replaces an earlier one. */
module MarkdownIndex {
  import opened Base
  import opened Text

  /** A Markdown file as the recursive glob yields it: its file name (the
      last path component) and the lines iterating over it in text mode
      yields, line endings already translated to `"\n"`. */
  datatype Doc = Doc(name: string, lines: seq<string>)

  /** `line.strip().startswith("#")`, tested on the left-stripped line:
      `HeadingIsStrippedHash` shows the two agree. */
  predicate IsHeading(line: string) {
    var s := LStrip(line);
    s != [] && s[0] == '#'
  }

  /** A line is a heading exactly when its stripped form starts with `#`. */
  lemma HeadingIsStrippedHash(line: string)
    ensures IsHeading(line) <==> Strip(line) != [] && Strip(line)[0] == '#'
  {
    var l := LStrip(line);
    if l != [] {
      assert !IsSpace(l[0]);
      RStripKeepsFirst(l);
    }
  }

  /** `t` occurs in `s` at index `i`. */
  ghost predicate InfixAt(t: string, s: string, i: int) {
    0 <= i <= |s| - |t| && t == s[i..i + |t|]
  }

  /** `line.strip().lstrip("#").strip()`. */
  function HeadingTitle(line: string): string {
    Strip(LStripChar(Strip(line), '#'))
  }

  /** A heading's title has no whitespace at either end and is a piece of
      the line it comes from. */
  lemma HeadingTitleShape(line: string)
    ensures var title := HeadingTitle(line);
            && (title != [] ==> !IsSpace(title[0]) && !IsSpace(title[|title| - 1]))
            && exists i :: InfixAt(title, line, i)
  {
    HeadingTitleInfix(line);
  }

  lemma HeadingTitleInfix(line: string)
    ensures exists i :: InfixAt(Strip(LStripChar(Strip(line), '#')), line, i)
  {
    var s1 := Strip(line);
    var s2 := LStripChar(s1, '#');
    StripInfix(line);
    LStripCharSuffix(s1, '#');
    assert InfixAt(s2, s1, |s1| - |s2|);
    StripInfix(s2);
    InfixChain(Strip(s2), s2, s1, line);
  }

  lemma InfixChain(a: string, b: string, c: string, d: string)
    requires (exists i :: InfixAt(a, b, i)) && (exists i :: InfixAt(b, c, i)) && (exists i :: InfixAt(c, d, i))
    ensures exists i :: InfixAt(a, d, i)
  {
    var i :| InfixAt(a, b, i);
    var j :| InfixAt(b, c, j);
    var k :| InfixAt(c, d, k);
    InfixTrans(a, b, c, i, j);
    InfixTrans(a, c, d, i + j, k);
  }

  lemma StripInfix(s: string)
    ensures exists i :: InfixAt(Strip(s), s, i)
  {
    StripShape(s);
    var i :| StrippedAt(s, Strip(s), i);
    assert InfixAt(Strip(s), s, i);
  }

  lemma InfixTrans(a: string, b: string, c: string, i: int, j: int)
    requires InfixAt(a, b, i) && InfixAt(b, c, j)
    ensures InfixAt(a, c, i + j)
  {
    assert forall k :: 0 <= k < |a| ==> a[k] == b[i + k] == c[j + i + k];
  }

  /** The index of the first heading line at or after `j`, if any. */
  function FirstHeadingFrom(lines: seq<string>, j: nat): (r: Option<nat>)
    requires j <= |lines|
    ensures r.Some? ==> j <= r.value < |lines|
    decreases |lines| - j
  {
    if j == |lines| then None
    else if IsHeading(lines[j]) then Some(j)
    else FirstHeadingFrom(lines, j + 1)
  }

  /** The scan stops at a heading, and every line it passes over is not
      one; it finds nothing only when no line from `j` on is a heading. */
  lemma {:induction false} FirstHeadingFromFinds(lines: seq<string>, j: nat)
    requires j <= |lines|
    ensures var r := FirstHeadingFrom(lines, j);
            && (r.Some? ==> IsHeading(lines[r.value]) && forall k :: j <= k < r.value ==> !IsHeading(lines[k]))
            && (r.None? ==> forall k :: j <= k < |lines| ==> !IsHeading(lines[k]))
    decreases |lines| - j
  {
    if j < |lines| && !IsHeading(lines[j]) {
      var r := FirstHeadingFrom(lines, j + 1);
      assert FirstHeadingFrom(lines, j) == r;
      FirstHeadingFromFinds(lines, j + 1);
      if r.Some? {
        forall k | j <= k < r.value ensures !IsHeading(lines[k]) {
          if k == j {
            assert !IsHeading(lines[j]);
          }
        }
      } else {
        forall k | j <= k < |lines| ensures !IsHeading(lines[k]) {
          if k == j {
            assert !IsHeading(lines[j]);
          }
        }
      }
    }
  }

  /** The index of the first heading line, if any. */
  function FirstHeading(lines: seq<string>): (r: Option<nat>)
    ensures r.Some? ==> r.value < |lines|
  {
    FirstHeadingFrom(lines, 0)
  }

  /** The index of the last `c` in `s[..n]`: Python's `rfind`, with `None`
      for `-1`. */
  function RFind(s: string, c: char, n: nat): (r: Option<nat>)
    requires n <= |s|
    ensures r.Some? ==> r.value < n && s[r.value] == c
    ensures r.Some? ==> forall k :: r.value < k < n ==> s[k] != c
    ensures r.None? ==> forall k :: 0 <= k < n ==> s[k] != c
  {
    if n == 0 then None
    else if s[n - 1] == c then Some(n - 1)
    else RFind(s, c, n - 1)
  }

  /** `PurePath(name).stem`: the name without its last suffix. A dot at the
      very start or the very end does not begin a suffix. */
  function Stem(name: string): (stem: string)
    ensures |stem| <= |name| && stem == name[..|stem|]
  {
    match RFind(name, '.', |name|)
    case Some(i) => if 0 < i < |name| - 1 then name[..i] else name
    case None => name
  }

  /** The title recorded for one file. */
  function Title(doc: Doc): string {
    match FirstHeading(doc.lines)
    case Some(k) => HeadingTitle(doc.lines[k])
    case None => Stem(doc.name)
  }

  /** The index after the files `docs`, in glob order. */
  function Index(docs: seq<Doc>): map<string, string> {
    if docs == [] then map[]
    else
      var last := docs[|docs| - 1];
      Index(docs[..|docs| - 1])[last.name := Title(last)]
  }

  /** The loop of the action: record each file's title under its name. */
  method CreateIndex(docs: seq<Doc>) returns (index: map<string, string>)
    ensures index == Index(docs)
  {
    index := map[];
    for i := 0 to |docs|
      invariant index == Index(docs[..i])
    {
      IndexSnoc(docs, i);
      var title := FindTitle(docs[i]);
      index := index[docs[i].name := title];
    }
    assert docs[..|docs|] == docs;
  }

  /** The inner loop and its `else`: scan the lines for the first heading
      and stop there; when the scan finds none, the title is the stem. */
  method FindTitle(doc: Doc) returns (title: string)
    ensures title == Title(doc)
  {
    var j := 0;
    while j < |doc.lines|
      invariant j <= |doc.lines|
      invariant forall k :: 0 <= k < j ==> !IsHeading(doc.lines[k])
    {
      if IsHeading(doc.lines[j]) {
        TitleFromHeading(doc, j);
        return HeadingTitle(doc.lines[j]);
      }
      j := j + 1;
    }
    TitleWithoutHeading(doc);
    title := Stem(doc.name);
  }

  lemma IndexSnoc(docs: seq<Doc>, i: nat)
    requires i < |docs|
    ensures Index(docs[..i + 1]) == Index(docs[..i])[docs[i].name := Title(docs[i])]
  {
    assert docs[..i + 1][..i] == docs[..i];
  }

  /** The names of the files `docs`. */
  ghost function Names(docs: seq<Doc>): set<string> {
    set d | d in docs :: d.name
  }

  /** Every file found has an entry, and nothing else does. */
  lemma {:induction false} IndexKeys(docs: seq<Doc>)
    ensures Index(docs).Keys == Names(docs)
  {
    if docs != [] {
      var init, last := docs[..|docs| - 1], docs[|docs| - 1];
      IndexKeys(init);
      assert Index(docs).Keys == Index(init).Keys + {last.name};
      assert docs == init + [last];
      NamesSnoc(init, last);
    }
  }

  lemma NamesSnoc(init: seq<Doc>, last: Doc)
    ensures Names(init + [last]) == Names(init) + {last.name}
  {
    var docs := init + [last];
    forall n | n in Names(docs) ensures n in Names(init) + {last.name} {
      var d :| d in docs && d.name == n;
      if d != last {
        assert d in init;
      }
    }
    forall n | n in Names(init) ensures n in Names(docs) {
      var d :| d in init && d.name == n;
      assert d in docs;
    }
    assert last in docs;
  }

  /** The entry of a name is the title of the last file with that name. */
  lemma {:induction false} IndexLatest(docs: seq<Doc>, i: nat)
    requires i < |docs|
    requires forall k :: i < k < |docs| ==> docs[k].name != docs[i].name
    ensures docs[i].name in Index(docs) && Index(docs)[docs[i].name] == Title(docs[i])
  {
    if i < |docs| - 1 {
      IndexLatest(docs[..|docs| - 1], i);
    }
  }

  /** A file whose name is seen only once is titled by its own content. */
  lemma IndexOfDistinct(docs: seq<Doc>, i: nat)
    requires i < |docs|
    requires forall k :: 0 <= k < |docs| && k != i ==> docs[k].name != docs[i].name
    ensures docs[i].name in Index(docs) && Index(docs)[docs[i].name] == Title(docs[i])
  {
    IndexLatest(docs, i);
  }

  /** The title of a file with a heading comes from its first heading. */
  lemma TitleFromHeading(doc: Doc, k: nat)
    requires k < |doc.lines| && IsHeading(doc.lines[k])
    requires forall m :: 0 <= m < k ==> !IsHeading(doc.lines[m])
    ensures Title(doc) == HeadingTitle(doc.lines[k])
  {
    FirstHeadingFromFinds(doc.lines, 0);
  }

  /** A file without a heading is titled by its stem. */
  lemma TitleWithoutHeading(doc: Doc)
    requires forall m :: 0 <= m < |doc.lines| ==> !IsHeading(doc.lines[m])
    ensures Title(doc) == Stem(doc.name)
  {
    FirstHeadingFromFinds(doc.lines, 0);
  }

  /** The stem of a `.md` file name is the name without `.md`, unless the
      file name is just `.md`. */
  lemma StemOfMarkdown(base: string)
    ensures Stem(base + ".md") == if base == [] then ".md" else base
  {
    var name := base + ".md";
    assert name[|base|] == '.' && name[|base| + 1] == 'm' && name[|base| + 2] == 'd';
    assert RFind(name, '.', |name|) == Some(|base|);
    assert name[..|base|] == base;
  }
  /** A line made of `#` marks, a space and some words, with or without
      its newline, is a heading titled by the words. */
  lemma HeadingOfWords(line: string, marks: string, words: string, tail: string)
    requires marks != [] && forall k :: 0 <= k < |marks| ==> marks[k] == '#'
    requires words != [] && !IsSpace(words[0]) && !IsSpace(words[|words| - 1])
    requires tail == [] || tail == "\n"
    requires line == marks + " " + words + tail
    ensures IsHeading(line) && HeadingTitle(line) == words
  {
    var s := marks + " " + words;
    assert s[0] == '#' && s[|s| - 1] == words[|words| - 1];
    StripTerminated(s);
    assert Strip(line) == s by {
      if tail == [] { assert line == s; } else { assert line == s + "\n"; }
    }
    assert s == marks + (" " + words);
    MarksOff(marks, " " + words, words);
    TitleOfParts(line, s, words);
    assert line[0] == '#';
  }

  /** Taking the marks and then the whitespace off `marks + " " + words`
      leaves the words. */
  lemma MarksOff(marks: string, rest: string, words: string)
    requires forall k :: 0 <= k < |marks| ==> marks[k] == '#'
    requires words != [] && !IsSpace(words[0]) && !IsSpace(words[|words| - 1])
    requires rest == [' '] + words
    ensures Strip(LStripChar(marks + rest, '#')) == words
  {
    LStripCharPrefix(marks, rest, '#');
    StripSpaced(words);
  }

  lemma StripSpaced(words: string)
    requires words != [] && !IsSpace(words[0]) && !IsSpace(words[|words| - 1])
    ensures Strip(" " + words) == words
  {
    var rest := " " + words;
    assert rest[0] == ' ' && rest[1..] == words;
    assert LStrip(rest) == LStrip(words) == words;
    RStripFixed(words);
  }

  lemma TitleOfParts(line: string, s: string, words: string)
    requires Strip(line) == s && Strip(LStripChar(s, '#')) == words
    ensures HeadingTitle(line) == words
  {
  }

  lemma {:induction false} LStripCharPrefix(marks: string, rest: string, c: char)
    requires forall k :: 0 <= k < |marks| ==> marks[k] == c
    requires rest != [] && rest[0] != c
    ensures LStripChar(marks + rest, c) == rest
    decreases |marks|
  {
    if marks != [] {
      assert (marks + rest)[1..] == marks[1..] + rest;
      LStripCharPrefix(marks[1..], rest, c);
    } else {
      assert marks + rest == rest;
    }
  }

  lemma RStripFixed(s: string)
    requires s != [] && !IsSpace(s[|s| - 1])
    ensures RStrip(s) == s
  {
  }

  /** `# Title A` is titled `Title A`. */
  lemma TitleA(line: string)
    requires line == "# Title A\n"
    ensures IsHeading(line) && HeadingTitle(line) == "Title A"
  {
    HeadingOfWords(line, "#", "Title A", "\n");
  }

  /** A file `a.md` headed `# Title A` and a file `b.md` without a heading
      give the index `{"a.md": "Title A", "b.md": "b"}`. */
  lemma IndexExample(docs: seq<Doc>)
    requires docs == [Doc("a.md", ["# Title A\n", "text\n"]), Doc("b.md", ["plain text\n"])]
    ensures Index(docs) == map["a.md" := "Title A", "b.md" := "b"]
  {
    var a, b := docs[0], docs[1];
    HeadedFile(a);
    PlainFile(b);
    assert docs[..1] == [a] && [a][..0] == [];
    assert Index(docs) == Index([a])[b.name := Title(b)];
  }

  lemma HeadedFile(doc: Doc)
    requires doc == Doc("a.md", ["# Title A\n", "text\n"])
    ensures Title(doc) == "Title A"
  {
    TitleA(doc.lines[0]);
    TitleFromHeading(doc, 0);
  }

  lemma PlainFile(doc: Doc)
    requires doc == Doc("b.md", ["plain text\n"])
    ensures Title(doc) == "b"
  {
    assert !IsHeading(doc.lines[0]);
    TitleWithoutHeading(doc);
    StemOfMarkdown("b");
    assert "b" + ".md" == doc.name;
  }

  /** The marks are taken off only up to the first space: a heading written
      `# #tag` has the title `#tag`, which still starts with `#`. */
  lemma TitleKeepsLaterHash(line: string, tag: string)
    requires tag == [] || !IsSpace(tag[|tag| - 1])
    requires line == "# #" + tag
    ensures IsHeading(line) && HeadingTitle(line) == "#" + tag
    ensures HeadingTitle(line)[0] == '#'
  {
    var words := "#" + tag;
    assert line == "#" + " " + words + "";
    HeadingOfWords(line, "#", words, "");
  }
}
