# LLM automation agent: a Dafny model of its task runner

The agent is a small web service. Its `/run` endpoint takes a free-text
`task`. It routes the task to one of nine handlers by testing keywords in a
fixed order, and the first test that matches wins. The handlers run a data
generator script, format a Markdown file with Prettier, and count the
Wednesdays in a list of dates. They also sort contacts by last and first
name, collect the first lines of the ten most recent log files, and index
Markdown files by their first heading. The last three pull the sender's
address out of an e-mail, read a card number out of OCR text, and write the
most similar pair of comments. This project models the routing in
`run_task`, the actions of `execute_task`, and the helpers these call. It
proves what each one computes.

Modules, one file each:

- `Base` (base.dfy): `Option` and `Result`.
- `Text` (text.dfy): the string operations the handlers use, as Python
  defines them. These are `strip`, `lstrip("#")`, `lower`, substring tests,
  `split(sep)[-1]`, `readlines` and `"\n".join`. Whitespace is the full set
  that `str.isspace` accepts. `Newlines` is what reading a file in text mode
  does to its content: `"\r\n"` and a lone `"\r"` become `"\n"`. The
  handlers that read `dates.txt`, `email.txt`, `comments.txt` and the log
  files see their contents through it.
- `Calendar` (calendar.dfy): `strptime(s, "%Y-%m-%d")`, the proleptic
  Gregorian weekday, and the Wednesday count. Python's field rules apply:
  the year has exactly four digits; the month and day have one or two; the
  day may be written as a space and one digit; year 0 is rejected.
- `Sorting` (sorting.dfy): a stable sort of indices by a strict total order.
  It is proved to be the only stably sorted arrangement, so it is the
  arrangement Python's `sorted` produces.
- `Contacts` (contacts.dfy): sorting contacts by `(last_name.lower(),
  first_name.lower())`. A record without a key makes the action fail.
- `Logs` (logs.dfy): the recent-logs action.
- `MarkdownIndex` (mdindex.dfy): the index of first headings.
- `Sender` (sender.dfy): the search `From:.*<(.+?)>`, with the regex
  engine's backtracking.
- `Card` (card.dfy): the search `\b\d{4}\s?\d{4}\s?\d{4}\s?\d{4}\b` and the
  removal of spaces from the match.
- `Similar` (similar.dfy): the search for the best pair of comments.
- `Router` (router.dfy): the keyword tests of `run_task`, in order.
- `Agent` (agent.dfy): `execute_task` and `run_task`.

Files are inputs. A `DataDir` record holds the contents the handlers read;
`None` stands for a missing file or directory. What the handlers write, and
the external programs they start, come back as a list of effects. How the
external programs end, and the similarity score of two comments, are
parameters (`Tools`).

Some behaviour follows the code rather than a plain reading of it:

- `execute_task("format_markdown")` has no `return`. After Prettier runs it
  falls through to the final `else` and raises "Unsupported action". So the
  format route of `/run` always answers with an error.
- A task containing "count wednesdays" is routed to counting only when no
  earlier test matches. "datagen", or "format" together with "markdown",
  come first.
- The datagen test is case-sensitive; all the other tests look at the
  lower-cased task.
- `execute_task("extract_credit_card")` reads `input_file`. That name is
  bound only on the contacts path, so the action fails before doing
  anything. (`run_task` has its own card handler and never calls it.)
- A heading's title loses only its leading `#` marks and the spaces after
  them: the line `# #tag` has the title `#tag`.
- When no keyword test matches, `run_task` returns nothing; the model's
  response is `NoResponse`.

## Model

| member | source | states |
|---|---|---|
| Text.IsSpace | app/main.py:106 | the characters `str.isspace` accepts, which `strip` removes; `Strip` and `StripShape` state what removing them does |
| Text.LStrip | app/main.py:106 | the result is no longer than the input and starts with no whitespace; `LStripSuffix` and `LStripDropsSpace` state that only leading whitespace goes |
| Text.RStrip | app/main.py:106 | the result is no longer than the input and ends with no whitespace; `RStripPrefix` and `RStripDropsSpace` state that only trailing whitespace goes |
| Text.Strip | app/main.py:106 | the result has no whitespace at either end and is no longer than the input |
| Text.StripShape | app/main.py:106 | `strip` removes only whitespace, and only at the two ends: the result is a contiguous piece of the input |
| Text.StripTerminated | app/main.py:291 | a line whose text has no outer whitespace strips to that text, with or without its newline |
| Text.LStripChar | app/main.py:329 | `lstrip("#")` removes only leading `#` characters, and the result does not start with one |
| Text.LStripSuffix | app/main.py:329 | what `lstrip` leaves is a suffix of its input |
| Text.RStripPrefix | app/main.py:291 | what `rstrip` leaves is a prefix of its input |
| Text.Lower | app/main.py:32 | lower-casing keeps the length, leaves no ASCII upper-case letter, maps each to its lower-case letter, and keeps every other character |
| Text.Find | app/main.py:26 | a found position is the first occurrence of the pattern; no position means no occurrence |
| Text.Contains | app/main.py:26 | the substring test `p in t`, characterised by `ContainsIff` |
| Text.ContainsIff | app/main.py:26 | the substring test `p in t` holds exactly when `p` occurs somewhere in `t` |
| Text.LastPiece | app/main.py:27 | `split(sep)[-1]` is a suffix without `sep`; it is preceded by `sep` if `sep` occurs, and is the whole text otherwise |
| Text.Newlines | app/main.py:217-218 | text-mode reading leaves no carriage return and never lengthens the text |
| Text.NewlinesPlain | app/main.py:217-218 | text without a carriage return is read unchanged, whatever follows it |
| Text.NewlinesIdempotent | app/main.py:217-218 | translating line endings twice is translating them once |
| Text.NewlinesEndings | app/main.py:217-218 | `\r\n`, `\r` and `\n` each end a line |
| Text.NewlinesReturn | app/main.py:217-218 | a carriage return not followed by a newline reads as a newline |
| Text.NewlinesReturnNewline | app/main.py:217-218 | `\r\n` reads as one newline |
| Text.TwoEndings | app/main.py:217-218 | a text with a `\r\n` ending and a lone `\r` ending reads with two newlines in their places |
| Text.ThreeLinesRead | app/main.py:217-218 | such a text reads as three lines, the first two ending in a newline |
| Text.ThreeLines | app/main.py:218 | two newlines split a text into three lines |
| Text.ReadLinesCons | app/main.py:218 | a line ending in a newline is read as one line, and reading goes on after it |
| Text.ReadLines | app/main.py:218 | `readlines` splits the text into lines whose concatenation is the text; every line but the last ends in a newline |
| Text.Join | app/main.py:297 | `"\n".join`, whose inverse `SplitJoin` states |
| Text.SplitJoin | app/main.py:297 | joining newline-free lines with `\n` and splitting again gives the lines back |
| Text.DecimalString | app/main.py:235 | `str(count)` is a non-empty string of digits without a leading zero |
| Text.DecimalRoundTrip | app/main.py:235 | the written count reads back as the count |
| Text.NonEmpty | app/main.py:292 | keeping non-empty lines leaves only non-empty lines |
| Text.NonEmptyConcat | app/main.py:288-293 | filtering distributes over concatenation |
| Text.NonEmptyFrom | app/main.py:292 | every kept line comes from the input |
| Text.DropsBlankMiddle | app/main.py:292 | a blank line between two others is dropped |
| Calendar.DaysInMonth | app/main.py:226 | months have 28 to 31 days, and 29 exactly for February of a leap year |
| Calendar.ParseYmd | app/main.py:226 | a parsed date is a valid calendar date |
| Calendar.ParseIso | app/main.py:226 | every valid date written as `YYYY-MM-DD` parses back to itself |
| Calendar.ParseShortFields | app/main.py:226 | one-digit and space-padded fields are accepted; 30 February, year 0 and trailing digits are rejected |
| Calendar.Ordinal | app/main.py:227 | the day number counted from 1 January of year 1, which `NextDayIsNext` states rises by one a day |
| Calendar.Weekday | app/main.py:227 | the weekday is in 0..6 |
| Calendar.NextDayIsNext | app/main.py:227 | the next day is valid, one ordinal later, and one weekday later modulo 7 |
| Calendar.WeekdayAnchors | app/main.py:227 | 1 January of year 1 is a Monday; 3 and 10 January 2024 are Wednesdays and 11 January is not |
| Calendar.IsWednesdayLine | app/main.py:224-231 | a line counts when its stripped text parses as a date that is a Wednesday; `CanonicalLine` states it for every valid date |
| Calendar.Wednesdays | app/main.py:222-231 | the count is at most the number of lines |
| Calendar.WednesdaysCountsLines | app/main.py:222-231 | the count is the number of lines that parse to a Wednesday; unparsable lines are skipped |
| Calendar.CountWednesdays | app/main.py:222-231 | the loop returns the number of lines whose date falls on a Wednesday |
| Calendar.CanonicalLine | app/main.py:224-228 | a line holding a date in canonical form counts exactly when that date is a Wednesday |
| Calendar.CountExample | app/main.py:222-231 | two Wednesdays and a Thursday count as two |
| Calendar.CountFileExample | app/main.py:217-235 | a `dates.txt` of 2024-01-03, 2024-01-10 and 2024-01-11 with `\r\n` and `\r` endings counts two Wednesdays and the action writes `2` |
| Calendar.CountEmpty | app/main.py:222-231 | an empty file counts zero |
| Sorting.Insert | app/main.py:257-259 | inserting one index into a sorted list keeps it sorted and adds exactly that index |
| Sorting.StableSort | app/main.py:257-259 | the order is a permutation of all indices, sorted by key, with equal keys in input order |
| Sorting.StableSortUnique | app/main.py:257-259 | only one order is stably sorted, so it is the one Python's stable sort produces |
| Sorting.StablyOrdered | app/main.py:257-259 | in a stably sorted order no later key is smaller, and equal keys keep input order |
| Sorting.ArrangePermutes | app/main.py:257-259 | arranging records by a stably sorted order keeps every record, each as often |
| Contacts.StrLess | app/main.py:257-259 | Python's string order, by code points with a prefix first; `StrLessIrreflexive`, `StrLessTransitive` and `StrLessTotal` make it a strict total order |
| Contacts.StrLessTotal | app/main.py:258 | string comparison by code points is total on distinct strings |
| Contacts.KeyLessIsOrder | app/main.py:258 | comparing `(last, first)` key pairs lexicographically is a strict total order |
| Contacts.KeyOf | app/main.py:258 | a record has a key exactly when both names are strings; the key is the two lower-cased names, last name first; the last name is looked at first |
| Contacts.SortKeys | app/main.py:257-259 | all keys are computed before sorting; the failure names the first record without a key |
| Contacts.SortContacts | app/main.py:257-259 | sorting fails exactly when some record lacks a key; on success every record is kept |
| Contacts.SortContactsStable | app/main.py:257-259 | the result is the records arranged in the stable order of their keys |
| Contacts.SortContactsPermutes | app/main.py:257-259 | the sorted list holds the same records, each as often |
| Contacts.SortContactsOrdered | app/main.py:257-259 | no record's key is smaller than that of a record before it |
| Contacts.SortContactsSorted | app/main.py:257-263 | the records written are those read, each with a key, in non-decreasing key order |
| Contacts.SortSwapsTwo | app/main.py:257-259 | two records out of order are swapped |
| Contacts.SortExample | app/main.py:258 | case is ignored: `alpha` sorts before `Zeta` |
| Contacts.FailureExample | app/main.py:258 | the first record without a key, and its last name before its first name, is the one reported |
| Logs.ReadLineFirst | app/main.py:291 | `readline` returns the first of the file's lines |
| Logs.ReadLine | app/main.py:291 | `readline()` returns a prefix of the text; `ReadLineShape` and `ReadLineFirst` state that it is the first line |
| Logs.FirstLine | app/main.py:290-291 | the first line of the file read in text mode, stripped: it has no newline, no carriage return and no outer whitespace |
| Logs.FirstLineBreak | app/main.py:290-291 | after text without a carriage return, each of the endings `\n`, `\r` and `\r\n` reads as one newline |
| Logs.FirstLineAtReturn | app/main.py:290-291 | a lone carriage return ends the first line: `a\rb\n` yields `a` |
| Logs.FirstLineOfText | app/main.py:291 | a file starting with a text line yields that text, whichever line ending follows it |
| Logs.FirstLineOfBlank | app/main.py:291-292 | a file starting with a blank line yields the empty line, which is then skipped |
| Logs.NewerIsOrder | app/main.py:281-285 | "more recently modified" is a strict total order on times |
| Logs.RecentOrder | app/main.py:281-285 | files are stably sorted by modification time, newest first |
| Logs.RecentFiles | app/main.py:289 | the first ten files, or all of them when there are fewer |
| Logs.RecentFilesAreNewest | app/main.py:281-289 | a file ahead of another in the order is at least as recent; the kept files are the head of the order |
| Logs.FirstLines | app/main.py:288-291 | one stripped first line per file, in order |
| Logs.RecentLines | app/main.py:288-293 | the non-empty first lines of the ten newest files; `RecentLinesClean`, `AtMostTen` and `OutputRoundTrip` state its properties |
| Logs.ExtractRecentLogs | app/main.py:288-293 | the loop collects the non-empty stripped first lines of the ten newest files, in order |
| Logs.RecentLinesClean | app/main.py:288-293 | every collected line is non-empty, has no newline and no outer whitespace |
| Logs.AtMostTen | app/main.py:289 | at most ten lines are collected, and no more than there are files |
| Logs.OutputRoundTrip | app/main.py:296-297 | splitting the written text at newlines gives the collected lines back |
| MarkdownIndex.IsHeading | app/main.py:328 | the heading test, which `HeadingIsStrippedHash` states is `line.strip().startswith("#")` |
| MarkdownIndex.HeadingTitle | app/main.py:329 | `line.strip().lstrip("#").strip()`; `HeadingTitleShape` and `HeadingOfWords` state what it yields |
| MarkdownIndex.HeadingIsStrippedHash | app/main.py:328 | a line is a heading exactly when it starts with `#` once stripped |
| MarkdownIndex.HeadingTitleShape | app/main.py:329 | a title has no outer whitespace and is a piece of its line |
| MarkdownIndex.FirstHeadingFrom | app/main.py:327-331 | the position found is a line index from the start position on; `FirstHeadingFromFinds` states it is the first heading |
| MarkdownIndex.FirstHeadingFromFinds | app/main.py:327-331 | the search stops at the first heading line, or finds none |
| MarkdownIndex.RFind | app/main.py:335 | the last occurrence of a character before a position |
| MarkdownIndex.Stem | app/main.py:335 | the stem is a prefix of the file name |
| MarkdownIndex.StemOfMarkdown | app/main.py:335 | `name.md` has stem `name`, and `.md` alone is its own stem |
| MarkdownIndex.Title | app/main.py:327-335 | a file's title, which `TitleFromHeading` and `TitleWithoutHeading` characterise |
| MarkdownIndex.FindTitle | app/main.py:327-335 | the for/break/else loop yields the title of the first heading, or the stem |
| MarkdownIndex.TitleFromHeading | app/main.py:327-331 | when line `k` is the first heading, the title comes from it |
| MarkdownIndex.TitleWithoutHeading | app/main.py:332-335 | a file without a heading is indexed under its stem |
| MarkdownIndex.HeadingOfWords | app/main.py:328-329 | `#`-marks, a space and words make a heading whose title is the words |
| MarkdownIndex.TitleKeepsLaterHash | app/main.py:329 | only the marks before the first space go: for any tag, `# #tag` is a heading titled `#tag`, so a title can start with `#` |
| MarkdownIndex.Index | app/main.py:315-335 | the index after the files in glob order; `IndexKeys`, `IndexLatest` and `IndexOfDistinct` state its entries |
| MarkdownIndex.CreateIndex | app/main.py:315-335 | the loop builds the index of all files in order, a later file overwriting an earlier one of the same name |
| MarkdownIndex.IndexKeys | app/main.py:315-335 | the index has an entry for every file name found, and no other |
| MarkdownIndex.IndexLatest | app/main.py:330 | a name's entry is the title of the last file with that name |
| MarkdownIndex.IndexOfDistinct | app/main.py:315-335 | with distinct names each file's entry is its own title |
| MarkdownIndex.IndexExample | app/main.py:315-335 | a file with `# Title A` and a file without a heading give `{"a.md": "Title A", "b.md": "b"}` |
| Sender.Lazy | app/main.py:151 | `(.+?)>` takes the nearest `>` on the line that leaves at least one character |
| Sender.GreedyFrom | app/main.py:151 | `.*<` backtracks from the end of the line to the last `<` that lets the rest match |
| Sender.SearchFrom | app/main.py:151 | the search returns the leftmost match, with the greedy then lazy choice within it |
| Sender.ExtractSender | app/main.py:151-153 | an address is found exactly when the pattern matches; it is the group of the match the engine prefers |
| Sender.PreferredUnique | app/main.py:151 | the preferred match is unique |
| Sender.SenderOfPreferred | app/main.py:151-153 | the group of the preferred match is the address returned |
| Sender.SenderShape | app/main.py:151-153 | the address is non-empty, has no newline and sits between `<` and `>` in the text |
| Sender.SenderOfHeader | app/main.py:151-153 | for `From: name <addr>` the address is `addr` |
| Card.Groups | app/main.py:75 | `n` groups of four digits, each after the first preceded by an optional whitespace character, match from a position exactly when an end is returned |
| Card.GroupsAtUnique | app/main.py:75 | the groups match with one end only |
| Card.SearchFrom | app/main.py:75 | the search returns the leftmost match with word boundaries at both ends |
| Card.RemoveSpaces | app/main.py:77 | the result has no space |
| Card.CardNumber | app/main.py:75-77 | a number is found exactly when the pattern matches; it is the leftmost match with its spaces removed |
| Card.CardNumberLeftmost | app/main.py:75-77 | the leftmost match decides the number |
| Card.CardSixteenDigits | app/main.py:75-77 | the number is sixteen digits exactly when the match holds only digits and spaces; another whitespace character stays in it |
| Card.TabSurvives | app/main.py:77 | only spaces are removed: a tab between groups stays in the number |
| Similar.Comments | app/main.py:106 | the comments are the non-empty stripped lines |
| Similar.CommentsClean | app/main.py:106 | comments have no newline and no outer whitespace |
| Similar.FirstBestUnique | app/main.py:118-126 | at most one pair is the first pair with the best score |
| Similar.KeptStep | app/main.py:123-126 | scoring one more pair keeps the loop invariant |
| Similar.KeptDone | app/main.py:121-129 | after the loops the kept pair is the first best pair; nothing is kept only when no score beats -1 |
| Similar.ScoreRow | app/main.py:122-126 | the inner loop extends the invariant over one row of pairs |
| Similar.MostSimilarPair | app/main.py:118-129 | the loops return the first pair with the highest score above -1, and none exactly when no pair beats -1 |
| Similar.FindMostSimilar | app/main.py:103-137 | fewer than two comments, or no score above -1, fail; otherwise the best pair is joined with a newline |
| Similar.SimilarOutcomeUnique | app/main.py:103-137 | the outcome is determined by the file and the scores |
| Similar.SimilarOutputRoundTrip | app/main.py:133 | the written pair splits back into the two comments |
| Similar.SimilarOutcomeShape | app/main.py:103-137 | success exactly with at least two comments and a score above -1; the text written splits into the first best pair |
| Router.DatagenEmail | app/main.py:27 | the address is no longer than the task; without `email=` it is the stripped task |
| Router.DatagenEmailAfterMarker | app/main.py:27 | the address is the stripped text after the last `email=` |
| Router.Test | app/main.py:26-88 | the nine keyword tests of `run_task`, in source order |
| Router.Handler | app/main.py:26-92 | the route each test leads to; `HandlerPosition` states that distinct tests lead to distinct routes |
| Router.Classify | app/main.py:26-92 | the route is that of the first matching test, in source order; no route exactly when no test matches |
| Router.FirstTestWins | app/main.py:26-92 | a matching test with no earlier match decides the route |
| Router.RouteTest | app/main.py:26-92 | a route is chosen only by its own test, and no earlier test matched |
| Router.HandlerPosition | app/main.py:26-92 | each test has its own handler |
| Router.DatagenFirst | app/main.py:26-28 | a task containing `datagen` always runs the generator |
| Router.FormatBeforeCount | app/main.py:32-39 | a formatting request wins over counting |
| Router.SenderRequestWithLog | app/main.py:47-57 | when no earlier test matches, a sender request that mentions "log" goes to the log extraction |
| Router.SenderRouteHasNoLog | app/main.py:47-57 | a task routed to the sender handler never mentions "log" |
| Router.CardRouteHasNoLog | app/main.py:47-65 | a task routed to the card handler never mentions "log" |
| Agent.Execute | app/main.py:184-381 | what each action of `execute_task` returns or raises, and what it does; `ExecuteOutcomes` and `FormatNeverSucceeds` state its promises |
| Agent.Forward | app/main.py:33-95 | a route's reply from `execute_task`: an exception becomes a 500 reply, a message a 200 reply; `ReplyShape` states it |
| Agent.SimilarReply | app/main.py:88-95 | the reply of the similar-comments route from the outcome of the search; `SimilarRoute` states it |
| Agent.Reply | app/main.py:26-95 | the reply of each route; `ReplyShape` and the route lemmas state it |
| Agent.ExecuteTask | app/main.py:184-381 | the action's result and effects are those of `Execute` |
| Agent.ExecuteOutcomes | app/main.py:184-381 | only the four actions with a `return` succeed, writing one file; the card action and unknown actions fail with no effect; a failure writes no output file (no `Wrote` effect) |
| Agent.FormatNeverSucceeds | app/main.py:186-203 | formatting always fails, after Prettier ran, with the unsupported-action error |
| Agent.RunTask | app/main.py:16-95 | the reply and effects of `/run` follow `RunSpec`: a bad request without a task, otherwise the chosen route's reply |
| Agent.RunSpecUnique | app/main.py:16-95 | the reply and effects are determined by the task, the files and the tools |
| Agent.ReplyShape | app/main.py:16-95 | no route gives a bad request; no reply exactly when no test matches; a server error writes no handler output file (no `Wrote` effect), though Prettier may already have rewritten `format.md` |
| Agent.RunReplies | app/main.py:16-95 | bad request exactly without a task; no reply exactly when no test matches; neither has an effect; an error writes no handler output file (no `Wrote` effect) |
| Agent.DatagenRoute | app/main.py:26-29 | a datagen task succeeds exactly when the script exists and exits normally; it runs only with the address parsed from the task |
| Agent.DatagenReply | app/main.py:164-181 | the generator is run with the given address; success exactly when it exits normally |
| Agent.FormatRouteFails | app/main.py:32-34 | the format route always answers with a server error |
| Agent.CountRoute | app/main.py:37-39 | the count of Wednesday lines is replied and written in decimal |
| Agent.SortRoute | app/main.py:42-44 | success exactly when every record has a key; the file written is a sorted permutation of the records |
| Agent.LoggedOutput | app/main.py:288-297 | at most ten lines, written so that splitting gives them back |
| Agent.LogsRoute | app/main.py:47-49 | the collected lines are written joined with newlines, and their number is replied |
| Agent.IndexRoute | app/main.py:52-54 | the index written has one entry per file name, and its size is replied |
| Agent.SenderRoute | app/main.py:57-62 | success exactly when the pattern matches; the address written is non-empty, newline-free and bracketed in the e-mail |
| Agent.CardRoute | app/main.py:65-85 | success exactly when the card pattern matches; the number written has no space |
| Agent.SimilarRoute | app/main.py:88-92 | success exactly with two comments and a score above -1; the file holds the first best pair |

## Left out

- Flask is not modelled. Request parsing, JSON reply bodies and status codes become the four `Response` constructors. Exception message texts become `Failure` constructors.
- The `/` and `/read` endpoints (app/main.py:384-404) are not modelled; they only read files.
- `print` output is left out.
- The generator script and Prettier run as external processes. Only how each one ends is modelled (`Tools`); the interpreter path, the command line apart from the address, and captured output are left out.
- OCR is left out: the text Tesseract reads from `credit_card.png` is an input, `ocrText`.
- The embedding model is left out. The cosine similarity of two comments is an abstract function `score` onto reals. A failure while loading or running the model is not modelled.
- The file system is a record of file contents. Read and write errors other than a missing file are not modelled. Examples are permissions and decoding errors.
- A Markdown file is given as the lines iterating over it yields, after the newline translation of text mode (`Doc.lines`); the translation is modelled by `Text.Newlines` only for the files read as whole texts.
- `glob("*.log")` and `rglob("*.md")` are the given sequence order. Modification times are integers rather than floats.
- JSON parsing of `contacts.json` is left out. Records are modelled with each name field absent, a string, or another JSON value. A file that is not a list of objects is not modelled. `json.dump` formatting is not modelled either; the written content is the list of records or the title map.
- The part of the card action of `execute_task` after line 351 (app/main.py:354-378) cannot be reached and is not modelled.
- Text.Lower: lower-cases ASCII letters only, because Python's Unicode case mapping is not modelled. The routing keywords are ASCII, but a non-ASCII upper-case letter is lower-cased by Python and not by the model.
- Contacts.KeyOf: uses the same ASCII-only lower-casing as `Text.Lower`.
- Card.CardNumber: `\d` and `\w` are ASCII digits and word characters. Python also counts other Unicode digits and letters.
- Calendar.ParseYmd: `%Y`, `%m` and `%d` accept ASCII digits only. Python's `\d` also takes other Unicode decimal digits.
