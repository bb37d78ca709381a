/** The two entry points of the agent: `run_task`, which routes a task text
    to a handler and turns its outcome into a response, and `execute_task`,
    which runs one named action. Files are inputs: the data directory is a
    record of the contents the handlers read, `None` standing for a file or
    directory that does not exist. What the handlers write, and the external
    programs they start, are returned as a list of effects. */
module Agent {
  import opened Base
  import opened Text
  import opened Calendar
  import opened Contacts
  import opened Logs
  import opened MarkdownIndex
  import opened Sender
  import opened Card
  import opened Similar
  import Router

  /** How an external program call ends: it ran and exited normally, it ran
      and exited with an error status, or it could not be started. */
  datatype ToolOutcome = Succeeded | ExitedWithError | CannotStart

  /** The contents of the data directory that the handlers read. Texts are
      the decoded contents of the files; the handlers that open them in text
      mode see them through `Newlines`. `ocrText` is the text OCR reads from
      `credit_card.png` when that image exists. */
  datatype DataDir = DataDir(
    datagenScript: bool,
    formatMd: bool,
    dates: Option<string>,
    contacts: Option<seq<Contact>>,
    logs: Option<seq<LogFile>>,
    docs: Option<seq<Doc>>,
    email: Option<string>,
    ocrText: Option<string>,
    comments: Option<string>)

  /** What lies outside the program: how the generator script and the
      formatter end, and the similarity of two comments. */
  datatype Tools = Tools(datagen: ToolOutcome, prettier: ToolOutcome, score: (string, string) -> real)

  /** What a handler writes to an output file. */
  datatype Content = Plain(text: string) | ContactList(records: seq<Contact>) | TitleIndex(titles: map<string, string>)

  /** An effect on the world outside the program. */
  datatype Effect = RanDatagen(email: string) | RanPrettier | Wrote(path: string, content: Content)

  /** The success message of a handler, with the number it reports. */
  datatype Message =
    | DataGenerated
    | MarkdownFormatted
    | Counted(wednesdays: nat)
    | SortedContacts(records: nat)
    | ExtractedLines(lines: nat)
    | CreatedIndex(entries: nat)
    | SenderSaved
    | CardSaved
    | SimilarSaved

  /** Why a handler fails. */
  datatype Failure =
    | Missing(path: string)
    | DatagenFailed
    | DatagenCannotStart
    | PrettierFailed
    | PrettierNotFound
    | UnsupportedAction(action: string)
    | BadContact(failure: KeyFailure)
    | NoSenderFound
    | NoCardNumberFound
    | CommentsFailure(reason: SimilarFailure)
      // The card action of `execute_task` tests `input_file`, a name bound
      // only on the contacts path, so it fails before doing anything.
    | UnboundInputFile

  /** The reply of `/run`: a missing task (status 400), a success (200), an
      error caught by a handler (500), or `NoResponse` when no test of the
      router matches and `run_task` returns `None` (what the web framework
      then answers is not part of this model). */
  datatype Response = BadRequest | Success(message: Message) | ServerError(failure: Failure) | NoResponse

  const DatesFile := "dates.txt"
  const DatesOut := "dates-wednesdays.txt"
  const ContactsFile := "contacts.json"
  const ContactsOut := "contacts-sorted.json"
  const LogsDir := "logs"
  const LogsOut := "logs-recent.txt"
  const DocsDir := "docs"
  const IndexOut := "docs/index.json"
  const FormatFile := "format.md"
  const DatagenScript := "datagen.py"
  const EmailFile := "email.txt"
  const SenderOut := "email-sender.txt"
  const CardImage := "credit_card.png"
  const CardOut := "credit-card.txt"
  const CommentsFile := "comments.txt"
  const SimilarOut := "comments-similar.txt"

  /** `execute_task(action)`: what the action returns or raises, and what it
      does. The formatting action has no `return`: after the formatter ran
      it reaches the final `else` and raises like an unknown action. The
      card action raises at once, its input name being unbound. */
  function Execute(action: string, dir: DataDir, prettier: ToolOutcome): (Result<Message, Failure>, seq<Effect>) {
    if action == "format_markdown" then
      if !dir.formatMd then (Err(Missing(FormatFile)), [])
      else
        match prettier
        case CannotStart => (Err(PrettierNotFound), [])
        case ExitedWithError => (Err(PrettierFailed), [RanPrettier])
        case Succeeded => (Err(UnsupportedAction(action)), [RanPrettier])
    else if action == "count_wednesdays" then
      match dir.dates
      case None => (Err(Missing(DatesFile)), [])
      case Some(text) =>
        var n := Wednesdays(ReadLines(Newlines(text)));
        (Ok(Counted(n)), [Wrote(DatesOut, Plain(DecimalString(n)))])
    else if action == "sort_contacts" then
      match dir.contacts
      case None => (Err(Missing(ContactsFile)), [])
      case Some(cs) =>
        match SortContacts(cs)
        case Err(e) => (Err(BadContact(e)), [])
        case Ok(sorted) => (Ok(SortedContacts(|cs|)), [Wrote(ContactsOut, ContactList(sorted))])
    else if action == "extract_recent_logs" then
      match dir.logs
      case None => (Err(Missing(LogsDir)), [])
      case Some(files) =>
        var lines := RecentLines(files);
        (Ok(ExtractedLines(|lines|)), [Wrote(LogsOut, Plain(Join(lines, '\n')))])
    else if action == "create_markdown_index" then
      match dir.docs
      case None => (Err(Missing(DocsDir)), [])
      case Some(docs) =>
        var index := Index(docs);
        (Ok(CreatedIndex(|index|)), [Wrote(IndexOut, TitleIndex(index))])
    else if action == "extract_credit_card" then (Err(UnboundInputFile), [])
    else (Err(UnsupportedAction(action)), [])
  }

  /** `execute_task(action)`, running the loops of the actions. */
  method ExecuteTask(action: string, dir: DataDir, prettier: ToolOutcome) returns (result: Result<Message, Failure>, effects: seq<Effect>)
    ensures (result, effects) == Execute(action, dir, prettier)
  {
    if action == "format_markdown" {
      if !dir.formatMd {
        return Err(Missing(FormatFile)), [];
      }
      match prettier {
        case CannotStart => return Err(PrettierNotFound), [];
        case ExitedWithError => return Err(PrettierFailed), [RanPrettier];
        case Succeeded =>
      }
      return Err(UnsupportedAction(action)), [RanPrettier];
    }
    if action == "count_wednesdays" {
      if dir.dates.None? {
        return Err(Missing(DatesFile)), [];
      }
      var count := CountWednesdays(ReadLines(Newlines(dir.dates.value)));
      return Ok(Counted(count)), [Wrote(DatesOut, Plain(DecimalString(count)))];
    }
    if action == "sort_contacts" {
      if dir.contacts.None? {
        return Err(Missing(ContactsFile)), [];
      }
      var contacts := dir.contacts.value;
      match SortContacts(contacts) {
        case Err(e) => return Err(BadContact(e)), [];
        case Ok(sorted) => return Ok(SortedContacts(|contacts|)), [Wrote(ContactsOut, ContactList(sorted))];
      }
    }
    if action == "extract_recent_logs" {
      if dir.logs.None? {
        return Err(Missing(LogsDir)), [];
      }
      var lines := ExtractRecentLogs(dir.logs.value);
      return Ok(ExtractedLines(|lines|)), [Wrote(LogsOut, Plain(Join(lines, '\n')))];
    }
    if action == "create_markdown_index" {
      if dir.docs.None? {
        return Err(Missing(DocsDir)), [];
      }
      var index := CreateIndex(dir.docs.value);
      return Ok(CreatedIndex(|index|)), [Wrote(IndexOut, TitleIndex(index))];
    }
    if action == "extract_credit_card" {
      return Err(UnboundInputFile), [];
    }
    return Err(UnsupportedAction(action)), [];
  }

  /** The reply of a route that calls `execute_task`: its error becomes a
      server error; its message is the reply, unless the route has a message
      of its own. */
  function Forward(outcome: (Result<Message, Failure>, seq<Effect>), own: Option<Message>): (Response, seq<Effect>) {
    match outcome.0
    case Err(f) => (ServerError(f), outcome.1)
    case Ok(m) => (Success(if own.Some? then own.value else m), outcome.1)
  }

  /** The reply of the route that finds similar comments, from the outcome
      of the search. */
  function SimilarReply(outcome: Result<string, SimilarFailure>): (Response, seq<Effect>) {
    match outcome
    case Err(why) => (ServerError(CommentsFailure(why)), [])
    case Ok(text) => (Success(SimilarSaved), [Wrote(SimilarOut, Plain(text))])
  }

  /** The reply of each route, the similar-comments route only when the
      comments file is missing. */
  function Reply(route: Router.Route, dir: DataDir, tools: Tools): (Response, seq<Effect>)
    requires !(route.FindSimilarComments? && dir.comments.Some?)
  {
    match route
    case NoRoute => (NoResponse, [])
    case Datagen(email) =>
      if !dir.datagenScript then (ServerError(Missing(DatagenScript)), [])
      else (
        match tools.datagen
        case Succeeded => (Success(DataGenerated), [RanDatagen(email)])
        case ExitedWithError => (ServerError(DatagenFailed), [RanDatagen(email)])
        case CannotStart => (ServerError(DatagenCannotStart), []))
    case FormatMarkdown => Forward(Execute("format_markdown", dir, tools.prettier), Some(MarkdownFormatted))
    case CountWednesdays => Forward(Execute("count_wednesdays", dir, tools.prettier), None)
    case SortContacts => Forward(Execute("sort_contacts", dir, tools.prettier), None)
    case ExtractRecentLogs => Forward(Execute("extract_recent_logs", dir, tools.prettier), None)
    case CreateMarkdownIndex => Forward(Execute("create_markdown_index", dir, tools.prettier), None)
    case ExtractSenderEmail => (
      match dir.email
      case None => (ServerError(Missing(EmailFile)), [])
      case Some(text) =>
        match ExtractSender(Newlines(text))
        case None => (ServerError(NoSenderFound), [])
        case Some(address) => (Success(SenderSaved), [Wrote(SenderOut, Plain(address))]))
    case ExtractCreditCard => (
      match dir.ocrText
      case None => (ServerError(Missing(CardImage)), [])
      case Some(text) =>
        match CardNumber(text)
        case None => (ServerError(NoCardNumberFound), [])
        case Some(number) => (Success(CardSaved), [Wrote(CardOut, Plain(number))]))
    case FindSimilarComments => (ServerError(Missing(CommentsFile)), [])
  }

  /** The reply of the similar-comments route when the comments file
      exists: the reply to some outcome the search may have. */
  ghost predicate SimilarSpec(comments: string, tools: Tools, response: Response, effects: seq<Effect>) {
    exists outcome :: SimilarOutcome(ReadLines(Newlines(comments)), tools.score, outcome)
                   && (response, effects) == SimilarReply(outcome)
  }

  /** The reply of `route`: the similar-comments route with its comments
      file present replies with the outcome of the search, every other
      route as `Reply` says. */
  ghost predicate RouteSpec(route: Router.Route, dir: DataDir, tools: Tools, response: Response, effects: seq<Effect>) {
    if route.FindSimilarComments? && dir.comments.Some? then SimilarSpec(dir.comments.value, tools, response, effects)
    else (response, effects) == Reply(route, dir, tools)
  }

  /** What `run_task` promises: a missing or empty task is a bad request;
      otherwise the router picks the route and the route's reply follows. */
  ghost predicate RunSpec(task: Option<string>, dir: DataDir, tools: Tools, response: Response, effects: seq<Effect>) {
    if task.None? || task.value == [] then response == BadRequest && effects == []
    else RouteSpec(Router.Classify(task.value), dir, tools, response, effects)
  }

  /** `run_task`: route the task and run the handler. */
  method RunTask(task: Option<string>, dir: DataDir, tools: Tools) returns (response: Response, effects: seq<Effect>)
    ensures RunSpec(task, dir, tools, response, effects)
  {
    if task.None? || task.value == [] {
      return BadRequest, [];
    }
    var route := Router.Classify(task.value);
    match route {
      case NoRoute =>
        return NoResponse, [];
      case Datagen(email) =>
        if !dir.datagenScript {
          return ServerError(Missing(DatagenScript)), [];
        }
        match tools.datagen {
          case Succeeded => return Success(DataGenerated), [RanDatagen(email)];
          case ExitedWithError => return ServerError(DatagenFailed), [RanDatagen(email)];
          case CannotStart => return ServerError(DatagenCannotStart), [];
        }
      case FormatMarkdown =>
        var result, done := ExecuteTask("format_markdown", dir, tools.prettier);
        response, effects := Forward((result, done), Some(MarkdownFormatted)).0, done;
      case CountWednesdays =>
        var result, done := ExecuteTask("count_wednesdays", dir, tools.prettier);
        response, effects := Forward((result, done), None).0, done;
      case SortContacts =>
        var result, done := ExecuteTask("sort_contacts", dir, tools.prettier);
        response, effects := Forward((result, done), None).0, done;
      case ExtractRecentLogs =>
        var result, done := ExecuteTask("extract_recent_logs", dir, tools.prettier);
        response, effects := Forward((result, done), None).0, done;
      case CreateMarkdownIndex =>
        var result, done := ExecuteTask("create_markdown_index", dir, tools.prettier);
        response, effects := Forward((result, done), None).0, done;
      case ExtractSenderEmail =>
        if dir.email.None? {
          return ServerError(Missing(EmailFile)), [];
        }
        match ExtractSender(Newlines(dir.email.value)) {
          case None => return ServerError(NoSenderFound), [];
          case Some(address) => return Success(SenderSaved), [Wrote(SenderOut, Plain(address))];
        }
      case ExtractCreditCard =>
        if dir.ocrText.None? {
          return ServerError(Missing(CardImage)), [];
        }
        match CardNumber(dir.ocrText.value) {
          case None => return ServerError(NoCardNumberFound), [];
          case Some(number) => return Success(CardSaved), [Wrote(CardOut, Plain(number))];
        }
      case FindSimilarComments =>
        if dir.comments.None? {
          return ServerError(Missing(CommentsFile)), [];
        }
        var outcome := FindMostSimilar(ReadLines(Newlines(dir.comments.value)), tools.score);
        response, effects := SimilarReply(outcome).0, SimilarReply(outcome).1;
    }
  }

  /** No handler output file is written: there is no `Wrote` effect.
      Running a program is a different effect, even Prettier, which
      rewrites `format.md` in place. */
  predicate WritesNothing(effects: seq<Effect>) {
    forall k :: 0 <= k < |effects| ==> !effects[k].Wrote?
  }

  /** Only the four actions that return a message succeed; the formatting
      action never does, the card action fails with no effect, and so does
      an unknown action. */
  lemma ExecuteOutcomes(action: string, dir: DataDir, prettier: ToolOutcome)
    ensures Execute(action, dir, prettier).0.Ok? ==>
              action in {"count_wednesdays", "sort_contacts", "extract_recent_logs", "create_markdown_index"}
    ensures action == "extract_credit_card" ==> Execute(action, dir, prettier) == (Err(UnboundInputFile), [])
    ensures action !in {"format_markdown", "count_wednesdays", "sort_contacts", "extract_recent_logs", "create_markdown_index",
                        "extract_credit_card"} ==>
              Execute(action, dir, prettier) == (Err(UnsupportedAction(action)), [])
    ensures Execute(action, dir, prettier).0.Err? ==> WritesNothing(Execute(action, dir, prettier).1)
    ensures Execute(action, dir, prettier).0.Ok? ==> |Execute(action, dir, prettier).1| == 1
  {
  }

  /** Formatting Markdown ends in an error even when the formatter succeeds:
      the file is formatted and the caller is told the action is
      unsupported. */
  lemma FormatNeverSucceeds(dir: DataDir, prettier: ToolOutcome)
    ensures Execute("format_markdown", dir, prettier).0.Err?
    ensures dir.formatMd && prettier == Succeeded ==>
              Execute("format_markdown", dir, prettier) == (Err(UnsupportedAction("format_markdown")), [RanPrettier])
  {
  }

  /** `run_task` has one reply for each task and data directory. */
  lemma RunSpecUnique(task: Option<string>, dir: DataDir, tools: Tools,
                      r1: Response, e1: seq<Effect>, r2: Response, e2: seq<Effect>)
    requires RunSpec(task, dir, tools, r1, e1) && RunSpec(task, dir, tools, r2, e2)
    ensures r1 == r2 && e1 == e2
  {
    if task.Some? && task.value != [] && Router.Classify(task.value).FindSimilarComments? && dir.comments.Some? {
      var lines := ReadLines(Newlines(dir.comments.value));
      var o1 :| SimilarOutcome(lines, tools.score, o1) && (r1, e1) == SimilarReply(o1);
      var o2 :| SimilarOutcome(lines, tools.score, o2) && (r2, e2) == SimilarReply(o2);
      SimilarOutcomeUnique(lines, tools.score, o1, o2);
    }
  }

  /** A route's reply is never a bad request, is no reply exactly when no
      test matched, and writes nothing when it is an error. */
  lemma ReplyShape(route: Router.Route, dir: DataDir, tools: Tools)
    requires !(route.FindSimilarComments? && dir.comments.Some?)
    ensures var (response, effects) := Reply(route, dir, tools);
            && !response.BadRequest?
            && (response.NoResponse? <==> route == Router.NoRoute)
            && (response.NoResponse? ==> effects == [])
            && (response.ServerError? ==> WritesNothing(effects))
  {
    match route
    case CountWednesdays => ExecuteOutcomes("count_wednesdays", dir, tools.prettier);
    case SortContacts => ExecuteOutcomes("sort_contacts", dir, tools.prettier);
    case ExtractRecentLogs => ExecuteOutcomes("extract_recent_logs", dir, tools.prettier);
    case CreateMarkdownIndex => ExecuteOutcomes("create_markdown_index", dir, tools.prettier);
    case FormatMarkdown => ExecuteOutcomes("format_markdown", dir, tools.prettier);
    case _ =>
  }

  /** The reply is a bad request exactly when the task is missing or empty,
      and no reply comes exactly when a task matches no test; neither has
      an effect. A failure never writes a file. */
  lemma RunReplies(task: Option<string>, dir: DataDir, tools: Tools, response: Response, effects: seq<Effect>)
    requires RunSpec(task, dir, tools, response, effects)
    ensures response == BadRequest <==> task.None? || task.value == []
    ensures response == NoResponse <==> task.Some? && task.value != [] && Router.Classify(task.value) == Router.NoRoute
    ensures response.BadRequest? || response.NoResponse? ==> effects == []
    ensures response.ServerError? ==> WritesNothing(effects)
  {
    if task.Some? && task.value != [] {
      var route := Router.Classify(task.value);
      if !(route.FindSimilarComments? && dir.comments.Some?) {
        assert (response, effects) == Reply(route, dir, tools);
        ReplyShape(route, dir, tools);
      } else {
        var outcome :| SimilarOutcome(ReadLines(Newlines(dir.comments.value)), tools.score, outcome)
                       && (response, effects) == SimilarReply(outcome);
      }
    }
  }

  /** A task routed to the formatter never gets a success reply. */
  lemma FormatRouteFails(dir: DataDir, tools: Tools, response: Response, effects: seq<Effect>)
    requires RouteSpec(Router.FormatMarkdown, dir, tools, response, effects)
    ensures response.ServerError?
    ensures dir.formatMd && tools.prettier == Succeeded ==>
              response == ServerError(UnsupportedAction("format_markdown")) && effects == [RanPrettier]
  {
    FormatNeverSucceeds(dir, tools.prettier);
  }

  /** A task naming `datagen` runs the generator with the address after the
      last `email=`, and writes nothing itself. */
  lemma DatagenRoute(task: string, dir: DataDir, tools: Tools, response: Response, effects: seq<Effect>)
    requires Contains(task, "datagen")
    requires RunSpec(Some(task), dir, tools, response, effects)
    ensures response == Success(DataGenerated) <==> dir.datagenScript && tools.datagen == Succeeded
    ensures forall k :: 0 <= k < |effects| ==> effects[k] == RanDatagen(Router.DatagenEmail(task))
  {
    Router.DatagenFirst(task);
    assert task != [];
    DatagenReply(Router.DatagenEmail(task), dir, tools, response, effects);
  }

  /** The generator route succeeds exactly when the script exists and runs
      to a normal exit; its only possible effect is running the script with
      the address. */
  lemma DatagenReply(email: string, dir: DataDir, tools: Tools, response: Response, effects: seq<Effect>)
    requires RouteSpec(Router.Datagen(email), dir, tools, response, effects)
    ensures response == Success(DataGenerated) <==> dir.datagenScript && tools.datagen == Succeeded
    ensures forall k :: 0 <= k < |effects| ==> effects[k] == RanDatagen(email)
  {
  }

  /** The count written to `dates-wednesdays.txt` reads back as the number
      of lines of `dates.txt` holding a Wednesday. */
  lemma CountRoute(dir: DataDir, tools: Tools, response: Response, effects: seq<Effect>)
    requires RouteSpec(Router.CountWednesdays, dir, tools, response, effects)
    requires dir.dates.Some?
    ensures var n := |WednesdayLines(ReadLines(Newlines(dir.dates.value)))|;
            && response == Success(Counted(n))
            && |effects| == 1 && effects[0].Wrote? && effects[0].path == DatesOut && effects[0].content.Plain?
            && (forall i :: 0 <= i < |effects[0].content.text| ==> IsDigit(effects[0].content.text[i]))
            && DecimalValue(effects[0].content.text) == n
  {
    var lines := ReadLines(Newlines(dir.dates.value));
    var n := Wednesdays(lines);
    assert Execute("count_wednesdays", dir, tools.prettier) == (Ok(Counted(n)), [Wrote(DatesOut, Plain(DecimalString(n)))]);
    assert (response, effects) == Forward(Execute("count_wednesdays", dir, tools.prettier), None);
    WednesdaysCountsLines(lines);
    DecimalRoundTrip(n);
  }

  /** Sorting contacts succeeds exactly when every record has both names;
      then the file written holds the same records, ordered by key.
      Otherwise nothing is written. */
  lemma SortRoute(dir: DataDir, tools: Tools, response: Response, effects: seq<Effect>)
    requires RouteSpec(Router.SortContacts, dir, tools, response, effects)
    requires dir.contacts.Some?
    ensures var cs := dir.contacts.value;
            response.Success? <==> forall k :: 0 <= k < |cs| ==> HasKey(cs[k])
    ensures response.ServerError? ==> response.failure.BadContact? && effects == []
    ensures response.Success? ==>
              && response.message == SortedContacts(|dir.contacts.value|)
              && |effects| == 1 && effects[0].Wrote? && effects[0].path == ContactsOut && effects[0].content.ContactList?
              && var sorted := effects[0].content.records;
              && multiset(sorted) == multiset(dir.contacts.value)
              && (forall p :: 0 <= p < |sorted| ==> HasKey(sorted[p]))
              && (forall p, q :: 0 <= p < q < |sorted| && HasKey(sorted[p]) && HasKey(sorted[q]) ==>
                    !KeyLess(KeyOf(sorted[q]).value, KeyOf(sorted[p]).value))
  {
    var cs := dir.contacts.value;
    assert (response, effects) == Forward(Execute("sort_contacts", dir, tools.prettier), None);
    if SortContacts(cs).Ok? {
      SortContactsSorted(cs, SortContacts(cs).value);
    }
  }

  /** The log route always succeeds once the directory exists; it reports at
      most ten lines, and the text written splits back into them. */
  lemma LogsRoute(dir: DataDir, tools: Tools, response: Response, effects: seq<Effect>)
    requires RouteSpec(Router.ExtractRecentLogs, dir, tools, response, effects)
    requires dir.logs.Some?
    ensures var lines := RecentLines(dir.logs.value);
            && response == Success(ExtractedLines(|lines|)) && |lines| <= Limit
            && effects == [Wrote(LogsOut, Plain(Join(lines, '\n')))]
            && (lines != [] ==> Split(Join(lines, '\n'), '\n') == lines)
  {
    var files := dir.logs.value;
    var lines := RecentLines(files);
    assert (response, effects) == Forward(Execute("extract_recent_logs", dir, tools.prettier), None);
    assert Execute("extract_recent_logs", dir, tools.prettier) == (Ok(ExtractedLines(|lines|)), [Wrote(LogsOut, Plain(Join(lines, '\n')))]);
    LoggedOutput(files);
  }

  /** At most ten lines are extracted, and their text splits back into
      them. */
  lemma LoggedOutput(files: seq<LogFile>)
    ensures var lines := RecentLines(files);
            && |lines| <= Limit
            && (lines != [] ==> Split(Join(lines, '\n'), '\n') == lines)
  {
    AtMostTen(files);
    if RecentLines(files) != [] {
      OutputRoundTrip(files);
    }
  }

  /** The index written has one entry per file name found. */
  lemma IndexRoute(dir: DataDir, tools: Tools, response: Response, effects: seq<Effect>)
    requires RouteSpec(Router.CreateMarkdownIndex, dir, tools, response, effects)
    requires dir.docs.Some?
    ensures var index := Index(dir.docs.value);
            && response == Success(CreatedIndex(|index|))
            && effects == [Wrote(IndexOut, TitleIndex(index))]
            && index.Keys == set d | d in dir.docs.value :: d.name
  {
    IndexKeys(dir.docs.value);
  }

  /** The sender route succeeds exactly when the pattern matches; the
      address written is then the one `ExtractSender` finds, non-empty, on
      one line, and standing between `<` and `>` in the message. */
  lemma SenderRoute(dir: DataDir, tools: Tools, response: Response, effects: seq<Effect>)
    requires RouteSpec(Router.ExtractSenderEmail, dir, tools, response, effects)
    requires dir.email.Some?
    ensures response == Success(SenderSaved) <==> ExtractSender(Newlines(dir.email.value)).Some?
    ensures response != Success(SenderSaved) ==> response == ServerError(NoSenderFound) && effects == []
    ensures response == Success(SenderSaved) ==>
              var a := ExtractSender(Newlines(dir.email.value)).value;
              && effects == [Wrote(SenderOut, Plain(a))]
              && a != [] && '\n' !in a && exists i :: BracketedAt(Newlines(dir.email.value), a, i)
  {
    if ExtractSender(Newlines(dir.email.value)).Some? {
      SenderShape(Newlines(dir.email.value), ExtractSender(Newlines(dir.email.value)).value);
    }
  }

  /** The card route succeeds exactly when the pattern matches the OCR
      text; the number written has no space in it. */
  lemma CardRoute(dir: DataDir, tools: Tools, response: Response, effects: seq<Effect>)
    requires RouteSpec(Router.ExtractCreditCard, dir, tools, response, effects)
    requires dir.ocrText.Some?
    ensures response == Success(CardSaved) <==> exists s, e :: IsCardMatch(dir.ocrText.value, s, e)
    ensures response != Success(CardSaved) ==> response == ServerError(NoCardNumberFound) && effects == []
    ensures response == Success(CardSaved) ==>
              var n := CardNumber(dir.ocrText.value).value;
              effects == [Wrote(CardOut, Plain(n))] && ' ' !in n
  {
  }

  /** The similar-comments route succeeds exactly when there are two
      comments and a pair scores above -1; the file written then splits
      back into the two comments of the first best pair. */
  lemma SimilarRoute(comments: string, tools: Tools, response: Response, effects: seq<Effect>)
    requires SimilarSpec(comments, tools, response, effects)
    ensures var cs := Comments(ReadLines(Newlines(comments)));
            response == Success(SimilarSaved) <==>
              |cs| >= 2 && exists a, b :: 0 <= a < b < |cs| && tools.score(cs[a], cs[b]) > -1.0
    ensures response != Success(SimilarSaved) ==> response.ServerError? && effects == []
    ensures response == Success(SimilarSaved) ==>
              var cs := Comments(ReadLines(Newlines(comments)));
              exists i, j :: FirstBest(cs, tools.score, i, j)
                          && effects == [Wrote(SimilarOut, Plain(Join([cs[i], cs[j]], '\n')))]
                          && Split(effects[0].content.text, '\n') == [cs[i], cs[j]]
  {
    var lines := ReadLines(Newlines(comments));
    var outcome :| SimilarOutcome(lines, tools.score, outcome) && (response, effects) == SimilarReply(outcome);
    SimilarOutcomeShape(lines, tools.score, outcome);
  }
}
