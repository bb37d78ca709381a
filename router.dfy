/** The keyword router of the `/run` endpoint: a chain of tests on the task
    text, tried in order, the first that holds choosing the handler. Only the
    `datagen` test looks at the task as given; every other test looks at its
    lower-cased form. When no test holds, no handler runs. */
module Router {
  import opened Base
  import opened Text

  /** The handler a task is routed to. `Datagen` carries the e-mail address
      passed to the generator script. */
  datatype Route =
    | Datagen(email: string)
    | FormatMarkdown
    | CountWednesdays
    | SortContacts
    | ExtractRecentLogs
    | CreateMarkdownIndex
    | ExtractSenderEmail
    | ExtractCreditCard
    | FindSimilarComments
    | NoRoute

  /** How many tests the chain has. */
  const TestCount := 9

  /** `task.split("email=")[-1].strip()`: the text after the last `email=`,
      or the whole task when there is none, stripped. */
  function DatagenEmail(task: string): (email: string)
    ensures |email| <= |task|
    ensures !Contains(task, "email=") ==> email == Strip(task)
  {
    Strip(LastPiece(task, "email="))
  }

  /** `email=` cannot overlap itself: its only `e` is its first character
      and its only `=` its last. */
  lemma MarkerNoOverlap()
    ensures forall k :: 0 < k < 6 ==> "email="[k] != 'e'
    ensures forall k :: 0 <= k < 5 ==> "email="[k] != '='
  {
  }

  /** Inside an occurrence of `email=`, no `e` follows its first character
      and no `=` comes before its last. */
  lemma InsideMarker(t: string, m: int, i: int)
    requires OccursAt(t, "email=", m) && m <= i < m + 6
    ensures i > m ==> t[i] != 'e'
    ensures i < m + 5 ==> t[i] != '='
  {
    MarkerNoOverlap();
    assert t[i] == t[m..m + 6][i - m];
  }

  /** Two occurrences of `email=` less than six characters apart are one. */
  lemma MarkerApart(t: string, m: int, i: int)
    requires OccursAt(t, "email=", m) && OccursAt(t, "email=", i) && m - 6 < i < m + 6
    ensures i == m
  {
    if i < m {
      InsideMarker(t, m, i + 5);
    } else if i > m {
      InsideMarker(t, m, i);
    }
  }

  /** An occurrence in `t` at or after `k` is an occurrence in `t[k..]`. */
  lemma OccursInSuffix(t: string, p: string, k: nat, i: int)
    requires k <= i && OccursAt(t, p, i)
    ensures OccursAt(t[k..], p, i - k)
  {
    assert t[k..][i - k..i - k + |p|] == t[i..i + |p|];
  }

  /** The address after the last `email=` is the one passed on, stripped. */
  lemma DatagenEmailAfterMarker(prefix: string, email: string)
    requires !Contains(email, "email=")
    ensures DatagenEmail(prefix + "email=" + email) == Strip(email)
  {
    var marker := "email=";
    var t := prefix + marker + email;
    var r := LastPiece(t, marker);
    var m, n := |prefix|, |t| - |r|;
    assert t[m..m + 6] == marker;
    assert OccursAt(t, marker, m);
    assert n >= 6 && OccursAt(t, marker, n - 6) by {
      assert t[..n][n - 6..] == t[n - 6..n];
    }
    if n <= m {
      OccursInSuffix(t, marker, n, m);
      ContainsIff(r, marker);
    } else if n - 6 >= m + 6 {
      OccursInSuffix(t, marker, m + 6, n - 6);
      ContainsIff(email, marker);
    } else {
      MarkerApart(t, m, n - 6);
    }
    assert r == email;
  }

  /** Test number `k` of the chain, in source order. */
  predicate Test(task: string, k: nat)
    requires k < TestCount
  {
    var l := Lower(task);
    match k
    case 0 => Contains(task, "datagen")
    case 1 => Contains(l, "format") && Contains(l, "markdown")
    case 2 => Contains(l, "count wednesdays")
    case 3 => Contains(l, "sort contacts")
    case 4 => Contains(l, "extract") && Contains(l, "log")
    case 5 => Contains(l, "create markdown index")
    case 6 => Contains(l, "extract sender email")
    case 7 => Contains(l, "extract credit card")
    case _ => Contains(l, "find similar comments")
  }

  /** The handler behind test number `k`. */
  function Handler(task: string, k: nat): Route
    requires k < TestCount
  {
    match k
    case 0 => Datagen(DatagenEmail(task))
    case 1 => FormatMarkdown
    case 2 => CountWednesdays
    case 3 => SortContacts
    case 4 => ExtractRecentLogs
    case 5 => CreateMarkdownIndex
    case 6 => ExtractSenderEmail
    case 7 => ExtractCreditCard
    case _ => FindSimilarComments
  }

  /** The chain of `if` statements of `run_task`. */
  function Classify(task: string): (r: Route)
    ensures r != NoRoute ==> exists k :: 0 <= k < TestCount && Test(task, k) && r == Handler(task, k)
                                      && forall k' :: 0 <= k' < k ==> !Test(task, k')
    ensures r == NoRoute <==> forall k :: 0 <= k < TestCount ==> !Test(task, k)
  {
    ClassifyFrom(task, 0)
  }

  /** The chain from test `k` on. */
  function ClassifyFrom(task: string, k: nat): (r: Route)
    requires k <= TestCount
    ensures r != NoRoute ==> exists j :: k <= j < TestCount && Test(task, j) && r == Handler(task, j)
                                      && forall k' :: k <= k' < j ==> !Test(task, k')
    ensures r == NoRoute <==> forall j :: k <= j < TestCount ==> !Test(task, j)
    decreases TestCount - k
  {
    if k == TestCount then NoRoute
    else if Test(task, k) then Handler(task, k)
    else ClassifyFrom(task, k + 1)
  }

  /** The first test that holds decides the route. */
  lemma FirstTestWins(task: string, k: nat)
    requires k < TestCount && Test(task, k)
    requires forall k' :: 0 <= k' < k ==> !Test(task, k')
    ensures Classify(task) == Handler(task, k)
  {
    var r := Classify(task);
    var j :| 0 <= j < TestCount && Test(task, j) && r == Handler(task, j)
             && forall k' :: 0 <= k' < j ==> !Test(task, k');
    assert j == k;
  }

  /** A task that mentions `datagen`, in lower case, always runs the
      generator, whatever else it says. */
  lemma DatagenFirst(task: string)
    requires Contains(task, "datagen")
    ensures Classify(task) == Datagen(DatagenEmail(task))
  {
    FirstTestWins(task, 0);
  }

  /** A text that contains `w` contains every prefix `p` of `w`. */
  lemma ContainsPrefix(t: string, p: string, w: string)
    requires |p| <= |w| && w[..|p|] == p && Contains(t, w)
    ensures Contains(t, p)
  {
    ContainsIff(t, w);
    var i :| OccursAt(t, w, i);
    assert t[i..i + |p|] == w[..|p|] == p;
    assert OccursAt(t, p, i);
    ContainsIff(t, p);
  }

  /** The route the chain picks tells which test held first. */
  lemma RouteTest(task: string, k: nat)
    requires k < TestCount && Classify(task) == Handler(task, k)
    ensures Test(task, k) && forall k' :: 0 <= k' < k ==> !Test(task, k')
  {
    var j :| 0 <= j < TestCount && Test(task, j) && Classify(task) == Handler(task, j)
             && forall k' :: 0 <= k' < j ==> !Test(task, k');
    HandlerPosition(task, j);
    HandlerPosition(task, k);
  }

  /** The position of a route's test in the chain. */
  function Position(r: Route): nat {
    match r
    case Datagen(_) => 0
    case FormatMarkdown => 1
    case CountWednesdays => 2
    case SortContacts => 3
    case ExtractRecentLogs => 4
    case CreateMarkdownIndex => 5
    case ExtractSenderEmail => 6
    case ExtractCreditCard => 7
    case FindSimilarComments => 8
    case NoRoute => TestCount
  }

  /** Distinct tests lead to distinct handlers. */
  lemma HandlerPosition(task: string, k: nat)
    requires k < TestCount
    ensures Position(Handler(task, k)) == k
  {
  }

  /** Every task that would reach the sender-address test and mentions
      `log` anywhere is taken by the log test before it: the sender route
      runs only for tasks without `log` in them. */
  lemma SenderRouteHasNoLog(task: string)
    requires Classify(task) == ExtractSenderEmail
    ensures Contains(Lower(task), "extract sender email")
    ensures !Contains(Lower(task), "log")
  {
    RouteTest(task, 6);
    var l := Lower(task);
    assert Contains(l, "extract sender email");
    ContainsPrefix(l, "extract", "extract sender email");
    assert !(Contains(l, "extract") && Contains(l, "log"));
  }

  /** The same holds for the card route. */
  lemma CardRouteHasNoLog(task: string)
    requires Classify(task) == ExtractCreditCard
    ensures Contains(Lower(task), "extract credit card")
    ensures !Contains(Lower(task), "log")
  {
    RouteTest(task, 7);
    var l := Lower(task);
    assert Contains(l, "extract credit card");
    ContainsPrefix(l, "extract", "extract credit card");
    assert !(Contains(l, "extract") && Contains(l, "log"));
  }

  /** A task that asks for the Wednesday count but also mentions formatting
      Markdown is routed to the formatter. */
  lemma FormatBeforeCount(task: string)
    requires !Contains(task, "datagen")
    requires Contains(Lower(task), "format") && Contains(Lower(task), "markdown")
    ensures Classify(task) == FormatMarkdown
  {
    FirstTestWins(task, 1);
  }

  /** A request for the sender address that also mentions a log, such as
      "extract sender email from log", goes to the log extraction when no
      earlier test holds, because that test comes first. */
  lemma SenderRequestWithLog(task: string)
    requires forall k :: 0 <= k < 4 ==> !Test(task, k)
    requires Contains(Lower(task), "extract sender email") && Contains(Lower(task), "log")
    ensures Classify(task) == ExtractRecentLogs
  {
    ContainsPrefix(Lower(task), "extract", "extract sender email");
    FirstTestWins(task, 4);
  }
}
