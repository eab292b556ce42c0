/** The GitHub service: it turns the raw replies of the GitHub REST and GraphQL
    APIs into the records the dashboard shows. Every HTTP reply is an input
    value here: a fetch that did not succeed is `None`, and a call that changes a
    repository gets a `Reply`. */
module GitHubService {
  import opened Wrappers
  import opened PhpText

  // ---------------------------------------------------------------------------
  // Cache keys and lifetimes (seconds) of the read-through cache around each fetch

  const ReposTtl := 3600
  const ContributionsTtl := 3600
  const CommitsTtl := 1800
  const EventsTtl := 600
  const ComparisonTtl := 3600

  const ReposKey := "github_repos"

  function ContributionsKey(year: int): string {
    "github_contributions_" + IntToString(year)
  }

  function EventsKey(limit: int): string {
    "github_events_" + IntToString(limit)
  }

  function CommitsKey(repo: string, limit: int): string {
    "github_commits_" + repo + "_" + IntToString(limit)
  }

  function ComparisonKey(repo: string, base: string, head: string): string {
    "github_comparison_" + repo + "_" + base + "_" + head
  }

  /** Each year's calendar and each event-page size has its own cache entry. */
  lemma CacheKeysSeparateYearsAndLimits(a: int, b: int)
    requires a != b
    ensures ContributionsKey(a) != ContributionsKey(b)
    ensures EventsKey(a) != EventsKey(b)
  {
    var p, q := "github_contributions_", "github_events_";
    assert ContributionsKey(a)[|p|..] == IntToString(a) && ContributionsKey(b)[|p|..] == IntToString(b);
    assert EventsKey(a)[|q|..] == IntToString(a) && EventsKey(b)[|q|..] == IntToString(b);
    if IntToString(a) == IntToString(b) {
      IntToStringInjective(a, b);
    }
  }

  // ---------------------------------------------------------------------------
  // Events

  const PushEvent := "PushEvent"
  const CreateEvent := "CreateEvent"
  const IssuesEvent := "IssuesEvent"
  const PullRequestEvent := "PullRequestEvent"

  /** The only event types the activity feed keeps. */
  const AllowedTypes: seq<string> := [PushEvent, CreateEvent, IssuesEvent, PullRequestEvent]

  predicate Allowed(kind: string) {
    kind in AllowedTypes
  }

  /** The `payload` fields of a GitHub event that the formatter reads; `None`
      stands for a missing key or a JSON null. */
  datatype RawPayload = RawPayload(
    gitRef: Option<string>,
    before: Option<string>,
    head: Option<string>,
    refType: Option<string>,
    action: Option<string>,
    issueTitle: Option<string>,
    pullRequestTitle: Option<string>)

  /** One element of the events API reply. `at` is the instant `createdAt`
      denotes, in whole minutes. */
  datatype RawEvent = RawEvent(
    id: string,
    kind: string,
    repoName: Option<string>,
    createdAt: string,
    at: int,
    payload: RawPayload)

  /** One record of the activity feed: the event's identity and a rendered
      one-line summary; `allMessages` is set only by a merge of pushes. */
  datatype Activity = Activity(
    id: string,
    kind: string,
    repo: Option<string>,
    createdAt: string,
    at: int,
    payload: string,
    allMessages: Option<seq<string>>)

  // ---------------------------------------------------------------------------
  // Commits and commit-range comparisons

  datatype RawAuthor = RawAuthor(name: string, date: string)
  datatype RawGitCommit = RawGitCommit(message: string, author: RawAuthor)
  /** A commit as the commits and compare APIs list it. */
  datatype RawCommit = RawCommit(sha: string, commit: RawGitCommit, htmlUrl: string)
  /** The reply of the compare API; `None` fields were missing. */
  datatype RawComparison = RawComparison(totalCommits: Option<int>, commits: Option<seq<RawCommit>>)

  datatype CommitRef = CommitRef(sha: string, message: string)
  datatype Comparison = Comparison(totalCommits: int, commits: seq<CommitRef>)
  datatype CommitSummary = CommitSummary(sha: string, message: string, author: string, date: string, url: string)

  /** The compare API: its reply for (repository, base, head), `None` when the
      call did not succeed. */
  type CompareApi = (string, string, string) -> Option<RawComparison>

  /** The comparison record built from the compare API's reply: a failed call
      gives no comparison, a missing total counts as 0 and missing commits as none. */
  function ToComparison(reply: Option<RawComparison>): (r: Option<Comparison>)
    ensures r.None? <==> reply.None?
    ensures r.Some? ==>
      var raw := reply.value.commits.GetOr([]);
      r.value.totalCommits == reply.value.totalCommits.GetOr(0) &&
      |r.value.commits| == |raw| &&
      forall k :: 0 <= k < |raw| ==> r.value.commits[k] == CommitRef(raw[k].sha, raw[k].commit.message)
  {
    match reply
    case None => None
    case Some(raw) =>
      var commits := raw.commits.GetOr([]);
      Some(Comparison(raw.totalCommits.GetOr(0),
                      seq(|commits|, k requires 0 <= k < |commits| => CommitRef(commits[k].sha, commits[k].commit.message))))
  }

  function GetCommitComparison(api: CompareApi, repo: string, base: string, head: string): Option<Comparison> {
    ToComparison(api(repo, base, head))
  }

  /** The recent commits of one repository, in the order the API lists them;
      a failed call gives none. */
  function RecentCommits(reply: Option<seq<RawCommit>>): (r: seq<CommitSummary>)
    ensures reply.None? ==> r == []
    ensures reply.Some? ==> (|r| == |reply.value| &&
      forall k :: 0 <= k < |r| ==>
        var c := reply.value[k];
        r[k] == CommitSummary(c.sha, c.commit.message, c.commit.author.name, c.commit.author.date, c.htmlUrl))
  {
    match reply
    case None => []
    case Some(raw) =>
      seq(|raw|, k requires 0 <= k < |raw| =>
        CommitSummary(raw[k].sha, raw[k].commit.message, raw[k].commit.author.name, raw[k].commit.author.date, raw[k].htmlUrl))
  }

  // ---------------------------------------------------------------------------
  // The one-line summary of an event

  /** The branch named by a push's ref: every "refs/heads/" in it is deleted. */
  function BranchOf(gitRef: Option<string>): (b: string)
    ensures gitRef.None? ==> b == ""
    ensures |b| <= |gitRef.GetOr("")|
  {
    RemoveAll(gitRef.GetOr(""), "refs/heads/")
  }

  /** A ref in which "refs/heads/" does not occur is the branch name as it is. */
  lemma BranchOfPlain(gitRef: Option<string>)
    requires !Occurs(gitRef.GetOr(""), "refs/heads/")
    ensures BranchOf(gitRef) == gitRef.GetOr("")
  {
    RemoveAllAbsent(gitRef.GetOr(""), "refs/heads/");
  }

  /** "1 commit" or "{n} commits". */
  function CountPhrase(n: int): string {
    if n == 1 then "1 commit" else IntToString(n) + " commits"
  }

  /** "Pushed 1 commit to {branch}{tail}" or "Pushed {n} commits to {branch}{tail}". */
  function PushSummary(n: int, branch: string, tail: string): string {
    "Pushed " + CountPhrase(n) + " to " + branch + tail
  }

  /** The summary of a positive count in its two wordings. */
  lemma PushSummaryWording(n: nat, branch: string, tail: string)
    ensures PushSummary(n, branch, tail) ==
      if n == 1 then "Pushed 1 commit to " + branch + tail
      else "Pushed " + NatToString(n) + " commits to " + branch + tail
  {
    if n == 1 {
      assert "Pushed " + "1 commit" + " to " == "Pushed 1 commit to ";
    } else {
      var digits := NatToString(n);
      assert "Pushed " + (digits + " commits") + " to " == "Pushed " + digits + " commits to ";
    }
  }

  /** The first line of a commit message, cut to 60 characters plus "..." when longer. */
  function Headline(message: string): (h: string)
    ensures |h| <= 63
    ensures '\n' !in h
    ensures var line := Split(message, '\n')[0];
      StartsWith(message, line) && (|line| <= 60 ==> h == line) && (|line| > 60 ==> h == line[..60] + "...")
  {
    var line := Split(message, '\n')[0];
    SplitFirstPiece(message, '\n');
    var h := Truncate(line, 60);
    assert |line| > 60 ==> h[..60] == line[..60] && h[60..] == "...";
    assert forall i :: 0 <= i < |h| ==> h[i] != '\n' by {
      forall i | 0 <= i < |h| ensures h[i] != '\n' {
        if i < |line| && |line| <= 60 {
          assert h[i] == line[i];
        } else if i < 60 {
          assert h[i] == line[i];
        } else {
          assert h[i] == h[60..][i - 60];
        }
      }
    }
    h
  }

  predicate TruthyValue(o: Option<string>) {
    o.Some? && Truthy(o.value)
  }

  /** The summary of a push: with a comparison of at least one commit it counts
      the commits and quotes the first one's headline; otherwise it names only the
      branch. */
  function FormatPush(e: RawEvent, api: CompareApi): (text: string)
    ensures StartsWith(text, "Pushed ")
  {
    var branch := BranchOf(e.payload.gitRef);
    var fallback := if Truthy(branch) then "Pushed to " + branch else "Pushed commits";
    if TruthyValue(e.payload.before) && TruthyValue(e.payload.head) && e.repoName.Some? then
      match GetCommitComparison(api, e.repoName.value, e.payload.before.value, e.payload.head.value)
      case Some(c) =>
        if c.totalCommits > 0 then
          if |c.commits| > 0 then PushSummary(c.totalCommits, branch, ": " + Headline(c.commits[0].message))
          else PushSummary(c.totalCommits, branch, "")
        else fallback
      case None => fallback
    else fallback
  }

  function FormatCreate(p: RawPayload): (text: string)
    ensures StartsWith(text, "Created ")
  {
    var refType := p.refType.GetOr("unknown");
    var name := p.gitRef.GetOr("");
    if Truthy(name) then "Created " + refType + ": " + name else "Created " + refType
  }

  /** "{noun} {action}: {title}" with the title cut to 40 characters plus "...",
      or "{noun} {action}" when the title is falsy. */
  function FormatTitled(noun: string, action: Option<string>, title: Option<string>): (text: string)
    ensures StartsWith(text, noun + " ")
  {
    var verb := action.GetOr("unknown");
    var t := title.GetOr("");
    if Truthy(t) then noun + " " + verb + ": " + Truncate(t, 40) else noun + " " + verb
  }

  /** The one-line summary of an event; each allow-listed type gets its own
      leading phrase and any other type is shown by its name. */
  function FormatEventPayload(e: RawEvent, api: CompareApi): (text: string)
    ensures e.kind == PushEvent ==> StartsWith(text, "Pushed ")
    ensures e.kind == CreateEvent ==> StartsWith(text, "Created ")
    ensures e.kind == IssuesEvent ==> StartsWith(text, "Issue ")
    ensures e.kind == PullRequestEvent ==> StartsWith(text, "Pull request ")
    ensures !Allowed(e.kind) ==> text == e.kind
  {
    if e.kind == PushEvent then FormatPush(e, api)
    else if e.kind == CreateEvent then FormatCreate(e.payload)
    else if e.kind == IssuesEvent then FormatTitled("Issue", e.payload.action, e.payload.issueTitle)
    else if e.kind == PullRequestEvent then FormatTitled("Pull request", e.payload.action, e.payload.pullRequestTitle)
    else e.kind
  }

    /** With a comparison of n > 0 commits and a non-empty commit list, a push
      reads "Pushed {n} commit(s) to {branch}: {headline of the first commit}". */
  lemma PushWithMessage(e: RawEvent, api: CompareApi, c: Comparison)
    requires e.kind == PushEvent
    requires TruthyValue(e.payload.before) && TruthyValue(e.payload.head) && e.repoName.Some?
    requires GetCommitComparison(api, e.repoName.value, e.payload.before.value, e.payload.head.value) == Some(c)
    requires c.totalCommits > 0 && |c.commits| > 0
    ensures FormatEventPayload(e, api) ==
      PushSummary(c.totalCommits, BranchOf(e.payload.gitRef), ": " + Headline(c.commits[0].message))
  {
  }

  /** With a comparison of n > 0 commits but an empty commit list, the text has no message part. */
  lemma PushWithoutMessages(e: RawEvent, api: CompareApi, c: Comparison)
    requires e.kind == PushEvent
    requires TruthyValue(e.payload.before) && TruthyValue(e.payload.head) && e.repoName.Some?
    requires GetCommitComparison(api, e.repoName.value, e.payload.before.value, e.payload.head.value) == Some(c)
    requires c.totalCommits > 0 && c.commits == []
    ensures FormatEventPayload(e, api) == PushSummary(c.totalCommits, BranchOf(e.payload.gitRef), "")
  {
  }

  /** Without both revisions, without a repository name, without a comparison or
      with a count of 0, a push reads "Pushed to {b}", or "Pushed commits" for a
      falsy branch. */
  lemma PushFallback(e: RawEvent, api: CompareApi)
    requires e.kind == PushEvent
    requires !(TruthyValue(e.payload.before) && TruthyValue(e.payload.head) && e.repoName.Some?) ||
             match GetCommitComparison(api, e.repoName.value, e.payload.before.value, e.payload.head.value)
             case None => true
             case Some(c) => c.totalCommits <= 0
    ensures var b := BranchOf(e.payload.gitRef);
      FormatEventPayload(e, api) == if Truthy(b) then "Pushed to " + b else "Pushed commits"
  {
  }

  /** A ref "refs/heads/{b}" names branch b when b has no further "refs/heads/" in it. */
  lemma BranchOfHeadsRef(b: string)
    requires !Occurs(b, "refs/heads/")
    ensures BranchOf(Some("refs/heads/" + b)) == b
  {
    RemoveAllLeading("refs/heads/", b);
    RemoveAllAbsent(b, "refs/heads/");
  }

  /** A create reads "Created {refType}: {ref}" for a truthy ref, else
      "Created {refType}"; a missing ref type reads "unknown". */
  lemma CreateText(e: RawEvent, api: CompareApi)
    requires e.kind == CreateEvent
    ensures var t := e.payload.refType.GetOr("unknown");
      e.payload.refType.None? ==> t == "unknown"
    ensures var t, name := e.payload.refType.GetOr("unknown"), e.payload.gitRef.GetOr("");
      FormatEventPayload(e, api) == if Truthy(name) then "Created " + t + ": " + name else "Created " + t
  {
  }

  /** An issue reads "Issue {action}: {title}" with a title over 40 characters
      cut to its first 40 plus "...", or "Issue {action}" for a falsy title. */
  lemma IssueText(e: RawEvent, api: CompareApi)
    requires e.kind == IssuesEvent
    ensures var a, t := e.payload.action.GetOr("unknown"), e.payload.issueTitle.GetOr("");
      var text := FormatEventPayload(e, api);
      (Truthy(t) && |t| <= 40 ==> text == "Issue " + a + ": " + t) &&
      (Truthy(t) && |t| > 40 ==> text == "Issue " + a + ": " + t[..40] + "..." && |text| == |"Issue " + a + ": "| + 43) &&
      (!Truthy(t) ==> text == "Issue " + a)
  {
  }

  /** A pull request reads like an issue, with "Pull request" in front. */
  lemma PullRequestText(e: RawEvent, api: CompareApi)
    requires e.kind == PullRequestEvent
    ensures var a, t := e.payload.action.GetOr("unknown"), e.payload.pullRequestTitle.GetOr("");
      var text := FormatEventPayload(e, api);
      (Truthy(t) && |t| <= 40 ==> text == "Pull request " + a + ": " + t) &&
      (Truthy(t) && |t| > 40 ==> text == "Pull request " + a + ": " + t[..40] + "..." && |text| == |"Pull request " + a + ": "| + 43) &&
      (!Truthy(t) ==> text == "Pull request " + a)
  {
  }

  // ---------------------------------------------------------------------------
  // The activity feed

  /** The allow-listed events, in their order. */
  function Retained(events: seq<RawEvent>): (r: seq<RawEvent>)
    ensures |r| <= |events|
    ensures forall k :: 0 <= k < |r| ==> Allowed(r[k].kind)
    ensures forall e :: e in r ==> e in events
    decreases |events|
  {
    if events == [] then []
    else (if Allowed(events[0].kind) then [events[0]] else []) + Retained(events[1..])
  }

  /** Filtering distributes over concatenation, so `Retained` keeps exactly the
      allow-listed events, each once, in input order. */
  lemma {:induction false} RetainedAppend(a: seq<RawEvent>, b: seq<RawEvent>)
    ensures Retained(a + b) == Retained(a) + Retained(b)
    decreases |a|
  {
    if a == [] {
      assert a + b == b;
    } else {
      var ab := a + b;
      var head := if Allowed(a[0].kind) then [a[0]] else [];
      assert ab[0] == a[0] && ab[1..] == a[1..] + b;
      RetainedAppend(a[1..], b);
      assert Retained(ab) == head + Retained(a[1..] + b);
      assert Retained(a) == head + Retained(a[1..]);
    }
  }

  lemma RetainedSingle(e: RawEvent)
    ensures Retained([e]) == if Allowed(e.kind) then [e] else []
  {
    assert [e][1..] == [];
  }

  /** The feed record of one event. */
  function Normalize(e: RawEvent, api: CompareApi): Activity {
    Activity(e.id, e.kind, e.repoName, e.createdAt, e.at, FormatEventPayload(e, api), None)
  }

  /** The recent-activity feed: one record per allow-listed event, in input
      order, with its id, type, repository and time copied and its summary
      rendered; a failed fetch gives an empty feed. */
  function RecentEvents(reply: Option<seq<RawEvent>>, api: CompareApi): (r: seq<Activity>)
    ensures reply.None? ==> r == []
    ensures reply.Some? ==> |r| == |Retained(reply.value)|
    ensures forall k :: 0 <= k < |r| ==> Allowed(r[k].kind) && r[k].allMessages.None?
    ensures reply.Some? ==> forall k :: 0 <= k < |r| ==>
      var e := Retained(reply.value)[k];
      r[k].id == e.id && r[k].kind == e.kind && r[k].repo == e.repoName &&
      r[k].createdAt == e.createdAt && r[k].at == e.at && r[k].payload == FormatEventPayload(e, api)
  {
    match reply
    case None => []
    case Some(events) =>
      var kept := Retained(events);
      seq(|kept|, k requires 0 <= k < |kept| => Normalize(kept[k], api))
  }

  // ---------------------------------------------------------------------------
  // Repositories

  datatype RawRepo = RawRepo(
    name: string,
    description: Option<string>,
    htmlUrl: string,
    stargazersCount: int,
    forksCount: int,
    language: Option<string>,
    topics: Option<seq<string>>)

  datatype Repo = Repo(
    name: string,
    description: Option<string>,
    url: string,
    stars: int,
    forks: int,
    language: Option<string>,
    topics: seq<string>)

  /** The owner's repositories, one record per listed repository and in the
      API's order, fields renamed and missing topics read as none; a failed call
      gives an empty list. */
  function FetchRepositories(reply: Option<seq<RawRepo>>): (r: seq<Repo>)
    ensures reply.None? ==> r == []
    ensures reply.Some? ==> (|r| == |reply.value| &&
      forall k :: 0 <= k < |r| ==>
        var raw := reply.value[k];
        r[k] == Repo(raw.name, raw.description, raw.htmlUrl, raw.stargazersCount, raw.forksCount, raw.language,
                     if raw.topics.Some? then raw.topics.value else []))
  {
    match reply
    case None => []
    case Some(raws) =>
      seq(|raws|, k requires 0 <= k < |raws| =>
        Repo(raws[k].name, raws[k].description, raws[k].htmlUrl, raws[k].stargazersCount,
             raws[k].forksCount, raws[k].language, raws[k].topics.GetOr([])))
  }

  // ---------------------------------------------------------------------------
  // The contribution calendar

  const DefaultYear := 2026

  datatype ContributionDay = ContributionDay(contributionCount: int, date: string)
  datatype Week = Week(contributionDays: seq<ContributionDay>)
  datatype Calendar = Calendar(totalContributions: int, weeks: seq<Week>)

  /** The GraphQL reply: failed, or answered with the nested
      `data.user.contributionsCollection.contributionCalendar` present or not. */
  datatype CalendarReply = Failed | Answered(calendar: Option<Calendar>)

  const EmptyCalendar := Calendar(0, [])

  /** The date range of the calendar query: the whole year, from its first
      second to its last. */
  function CalendarRange(year: int): (range: (string, string))
    ensures StartsWith(range.0, IntToString(year) + "-") && StartsWith(range.1, IntToString(year) + "-")
    ensures range.0[|IntToString(year)| + 1..] == "01-01T00:00:00Z"
    ensures range.1[|IntToString(year)| + 1..] == "12-31T23:59:59Z"
  {
    var y := IntToString(year) + "-";
    ConcatSlices(y, "01-01T00:00:00Z");
    ConcatSlices(y, "12-31T23:59:59Z");
    (y + "01-01T00:00:00Z", y + "12-31T23:59:59Z")
  }

  lemma ConcatSlices(a: string, b: string)
    ensures StartsWith(a + b, a) && (a + b)[|a|..] == b
  {
    assert (a + b)[..|a|] == a;
  }

  /** A year's calendar: the one the query returned, or exactly the empty
      calendar when the call failed or the calendar is missing from the reply. */
  function ContributionsForYear(year: int, reply: CalendarReply): (c: Calendar)
    ensures reply.Answered? && reply.calendar.Some? ==> c == reply.calendar.value
    ensures reply.Failed? || reply.calendar.None? ==> c.totalContributions == 0 && c.weeks == []
  {
    match reply
    case Answered(Some(calendar)) => calendar
    case _ => EmptyCalendar
  }

  // ---------------------------------------------------------------------------
  // Repository management

  /** The reply to a call that changes a repository. */
  datatype Reply<T> = Ok(body: T) | Err(status: int, message: Option<string>)

  /** The `{success, message | error, status, ...}` array returned to the admin pages. */
  datatype RepoResult<T> =
    | Success(message: string, data: Option<T>)
    | Failure(error: string, status: int)

  datatype RawNewRepo = RawNewRepo(
    id: int, name: string, fullName: string, description: Option<string>,
    htmlUrl: string, cloneUrl: string, sshUrl: string, isPrivate: bool)

  datatype NewRepo = NewRepo(
    id: int, name: string, fullName: string, description: Option<string>,
    url: string, cloneUrl: string, sshUrl: string, isPrivate: bool)

  /** The failure shape shared by every repository call: the API's message, or
      the call's own fallback text, and the status code. */
  function FailureOf<T, U>(reply: Reply<T>, fallback: string): (r: RepoResult<U>)
    requires reply.Err?
    ensures r == Failure(reply.message.GetOr(fallback), reply.status)
  {
    Failure(reply.message.GetOr(fallback), reply.status)
  }

  /** Creating a repository succeeds exactly when the API accepts it, and then
      reports the new repository's fields. */
  function CreateRepository(reply: Reply<RawNewRepo>): (r: RepoResult<NewRepo>)
    ensures r.Success? <==> reply.Ok?
    ensures reply.Ok? ==> r == Success("", Some(NewRepo(reply.body.id, reply.body.name, reply.body.fullName,
      reply.body.description, reply.body.htmlUrl, reply.body.cloneUrl, reply.body.sshUrl, reply.body.isPrivate)))
    ensures reply.Err? ==> r.error == reply.message.GetOr("Failed to create repository") && r.status == reply.status
  {
    match reply
    case Ok(b) => Success("", Some(NewRepo(b.id, b.name, b.fullName, b.description, b.htmlUrl, b.cloneUrl, b.sshUrl, b.isPrivate)))
    case Err(_, _) => FailureOf(reply, "Failed to create repository")
  }

  /** Whether a repository exists is whether the lookup succeeded. */
  function RepositoryExists(reply: Reply<()>): (found: bool)
    ensures found <==> reply.Ok?
  {
    reply.Ok?
  }

  function DeleteRepository(name: string, reply: Reply<()>): (r: RepoResult<()>)
    ensures r.Success? <==> reply.Ok?
    ensures reply.Ok? ==> r.message == "Repository '" + name + "' has been deleted from GitHub"
    ensures reply.Err? ==> r.error == reply.message.GetOr("Failed to delete repository") && r.status == reply.status
  {
    match reply
    case Ok(_) => Success("Repository '" + name + "' has been deleted from GitHub", None)
    case Err(_, _) => FailureOf(reply, "Failed to delete repository")
  }

  function ArchiveRepository(name: string, reply: Reply<()>): (r: RepoResult<()>)
    ensures r.Success? <==> reply.Ok?
    ensures reply.Ok? ==> r.message == "Repository '" + name + "' has been archived on GitHub"
    ensures reply.Err? ==> r.error == reply.message.GetOr("Failed to archive repository") && r.status == reply.status
  {
    match reply
    case Ok(_) => Success("Repository '" + name + "' has been archived on GitHub", None)
    case Err(_, _) => FailureOf(reply, "Failed to archive repository")
  }

  // ---------------------------------------------------------------------------
  // updateRepository: the allow-list and the topic splitting

  /** A value in the update array: null, a string, or a list of strings. */
  datatype Value = Null | Str(s: string) | StrList(items: seq<string>)

  /** The keys that may be sent to GitHub. */
  const UpdatableFields: seq<string> := ["description", "homepage", "topics"]

  /** `array_intersect_key(updates, array_flip(allowed))`: the allow-listed
      entries, in the order of `updates`. */
  function AllowedUpdates(updates: seq<(string, Value)>): (r: seq<(string, Value)>)
    ensures |r| <= |updates|
    ensures forall k :: 0 <= k < |r| ==> r[k].0 in UpdatableFields && r[k] in updates
    ensures forall k :: 0 <= k < |updates| && updates[k].0 in UpdatableFields ==> updates[k] in r
    decreases |updates|
  {
    if updates == [] then []
    else (if updates[0].0 in UpdatableFields then [updates[0]] else []) + AllowedUpdates(updates[1..])
  }

  /** The allow-list works entry by entry: filtering a concatenation
      concatenates the filtered parts, so the order of `updates` is kept. */
  lemma {:induction false} AllowedUpdatesAppend(a: seq<(string, Value)>, b: seq<(string, Value)>)
    ensures AllowedUpdates(a + b) == AllowedUpdates(a) + AllowedUpdates(b)
    decreases |a|
  {
    if a == [] {
      assert a + b == b;
    } else {
      var ab := a + b;
      var head := if a[0].0 in UpdatableFields then [a[0]] else [];
      assert ab[0] == a[0] && ab[1..] == a[1..] + b;
      AllowedUpdatesStep(ab);
      AllowedUpdatesStep(a);
      AllowedUpdatesAppend(a[1..], b);
      Rebracket(head, AllowedUpdates(a[1..]), AllowedUpdates(b));
    }
  }

  lemma Rebracket<T>(x: seq<T>, y: seq<T>, z: seq<T>)
    ensures x + (y + z) == (x + y) + z
  {
  }

  lemma AllowedUpdatesStep(updates: seq<(string, Value)>)
    requires updates != []
    ensures AllowedUpdates(updates) ==
      (if updates[0].0 in UpdatableFields then [updates[0]] else []) + AllowedUpdates(updates[1..])
  {
  }

  lemma AllowedUpdatesSingle(entry: (string, Value))
    ensures AllowedUpdates([entry]) == if entry.0 in UpdatableFields then [entry] else []
  {
    assert [entry][1..] == [];
  }

  /** `array_map('trim', explode(',', s))` */
  function TrimmedPieces(s: string): (pieces: seq<string>)
    ensures |pieces| == |Split(s, ',')|
    ensures forall k :: 0 <= k < |pieces| ==> pieces[k] == Trim(Split(s, ',')[k])
    ensures forall k :: 0 <= k < |pieces| ==> TrimmedPiece(pieces[k])
  {
    var parts := Split(s, ',');
    assert forall k :: 0 <= k < |parts| ==> TrimmedPiece(Trim(parts[k])) by {
      forall k | 0 <= k < |parts|
        ensures TrimmedPiece(Trim(parts[k]))
      {
        TrimKeepsComma(parts[k]);
      }
    }
    seq(|parts|, k requires 0 <= k < |parts| => Trim(parts[k]))
  }

  /** A piece with no comma that neither starts nor ends with a trimmed character. */
  predicate TrimmedPiece(p: string) {
    ',' !in p && (p == [] || (!IsTrimChar(p[0]) && !IsTrimChar(p[|p| - 1])))
  }

  /** Trimming a piece without a comma gives a trimmed piece without a comma. */
  lemma TrimKeepsComma(p: string)
    requires ',' !in p
    ensures TrimmedPiece(Trim(p))
  {
  }

  /** `array_filter(array_map('trim', explode(',', s)))` AS WRITTEN: the PHP
      array it builds, as (key, value) pairs. `array_filter` keeps the keys of
      the entries it keeps, so a dropped piece leaves a gap in the keys. */
  function TopicsAsWritten(s: string): (r: seq<(nat, string)>)
    ensures KeptInOrder(r, TrimmedPieces(s), 0)
    ensures forall i :: 0 <= i < |TrimmedPieces(s)| && Truthy(TrimmedPieces(s)[i]) ==> (i, TrimmedPieces(s)[i]) in r
  {
    KeepTruthyKeeps(TrimmedPieces(s), 0);
    KeepTruthyComplete(TrimmedPieces(s), 0);
    KeepTruthy(TrimmedPieces(s), 0)
  }

  /** `array_filter` over the entries keyed `key`, `key + 1`, ...: the truthy
      values with their keys. */
  function KeepTruthy(values: seq<string>, key: nat): seq<(nat, string)>
    decreases |values|
  {
    if values == [] then []
    else (if Truthy(values[0]) then [(key, values[0])] else []) + KeepTruthy(values[1..], key + 1)
  }

  /** Every entry of `r` is a truthy value of `values` under its key (counted
      from `key`), and the keys increase. */
  predicate KeptInOrder(r: seq<(nat, string)>, values: seq<string>, key: nat) {
    (forall k :: 0 <= k < |r| ==>
      key <= r[k].0 < key + |values| && Truthy(r[k].1) && r[k].1 == values[r[k].0 - key]) &&
    (forall k, l :: 0 <= k < l < |r| ==> r[k].0 < r[l].0)
  }

  /** `array_filter` keeps only truthy values, each under its original key, in
      increasing key order. */
  lemma {:induction false} KeepTruthyKeeps(values: seq<string>, key: nat)
    ensures KeptInOrder(KeepTruthy(values, key), values, key)
    decreases |values|
  {
    if values != [] {
      KeepTruthyKeeps(values[1..], key + 1);
      KeptCons(values, key, KeepTruthy(values[1..], key + 1));
    }
  }

  lemma KeptCons(values: seq<string>, key: nat, rest: seq<(nat, string)>)
    requires values != [] && KeptInOrder(rest, values[1..], key + 1)
    ensures KeptInOrder((if Truthy(values[0]) then [(key, values[0])] else []) + rest, values, key)
  {
    assert forall k :: 0 <= k < |rest| ==> values[1..][rest[k].0 - (key + 1)] == values[rest[k].0 - key];
    if Truthy(values[0]) {
      var r := [(key, values[0])] + rest;
      assert forall k :: 1 <= k < |r| ==> r[k] == rest[k - 1];
    }
  }

  /** ... and it keeps every truthy value. */
  lemma {:induction false} KeepTruthyComplete(values: seq<string>, key: nat)
    ensures forall i :: 0 <= i < |values| && Truthy(values[i]) ==> (key + i, values[i]) in KeepTruthy(values, key)
    decreases |values|
  {
    if values != [] {
      KeepTruthyComplete(values[1..], key + 1);
      forall i | 1 <= i < |values| && Truthy(values[i])
        ensures (key + i, values[i]) in KeepTruthy(values, key)
      {
        assert values[1..][i - 1] == values[i];
      }
    }
  }

  /** JSON, as `json_encode` writes a PHP array of strings: a list when the keys
      are 0, 1, 2, ... in order, an object otherwise. */
  datatype Json = JArray(items: seq<string>) | JObject(members: seq<(nat, string)>)

  predicate IsList(entries: seq<(nat, string)>) {
    forall k :: 0 <= k < |entries| ==> entries[k].0 == k
  }

  /** The values of keyed entries, in order (`array_values`). */
  function Values(entries: seq<(nat, string)>): (r: seq<string>)
    ensures |r| == |entries| && forall k :: 0 <= k < |r| ==> r[k] == entries[k].1
  {
    seq(|entries|, k requires 0 <= k < |entries| => entries[k].1)
  }

  function JsonEncode(entries: seq<(nat, string)>): Json {
    if IsList(entries) then JArray(Values(entries)) else JObject(entries)
  }

  /** As written, "a,,b" is sent to GitHub as the object {"0":"a","2":"b"}
      rather than the list ["a","b"]. */
  lemma TopicsAsWrittenSendsObject()
    ensures TopicsAsWritten("a,,b") == [(0, "a"), (2, "b")]
    ensures JsonEncode(TopicsAsWritten("a,,b")).JObject?
  {
    TrimmedPiecesExample();
    KeepTruthyExample();
    var kept: seq<(nat, string)> := [(0, "a"), (2, "b")];
    assert kept[1].0 != 1;
  }

  lemma TrimmedPiecesExample()
    ensures TrimmedPieces("a,,b") == ["a", "", "b"]
  {
    assert "a,,b" == ['a', ',', ',', 'b'];
    PiecesAroundGap('a', 'b');
  }

  /** "x,,y" splits into "x", "" and "y", each already trimmed. */
  lemma PiecesAroundGap(x: char, y: char)
    requires x != ',' && y != ',' && !IsTrimChar(x) && !IsTrimChar(y)
    ensures TrimmedPieces([x, ',', ',', y]) == [[x], [], [y]]
  {
    var s := [x, ',', ',', y];
    SplitAroundGap(x, y);
    PieceOfOneChar(s, 0, x);
    PieceOfNothing(s, 1);
    PieceOfOneChar(s, 2, y);
    ThreeItems(TrimmedPieces(s), [x], [], [y]);
  }

  lemma ThreeItems<T>(p: seq<T>, a: T, b: T, c: T)
    requires |p| == 3 && p[0] == a && p[1] == b && p[2] == c
    ensures p == [a, b, c]
  {
  }

  lemma PieceOfOneChar(s: string, k: nat, c: char)
    requires k < |Split(s, ',')| && Split(s, ',')[k] == [c] && !IsTrimChar(c)
    ensures k < |TrimmedPieces(s)| && TrimmedPieces(s)[k] == [c]
  {
    assert TrimmedPieces(s)[k] == Trim([c]);
    TrimOneChar(c);
  }

  lemma PieceOfNothing(s: string, k: nat)
    requires k < |Split(s, ',')| && Split(s, ',')[k] == []
    ensures k < |TrimmedPieces(s)| && TrimmedPieces(s)[k] == []
  {
    TrimNothing();
  }

  lemma SplitAroundGap(x: char, y: char)
    requires x != ',' && y != ','
    ensures Split([x, ',', ',', y], ',') == [[x], [], [y]]
  {
    var s := [x, ',', ',', y];
    assert s[1..] == [',', ',', y] && s[1..][1..] == [',', y] && s[1..][1..][1..] == [y];
    assert [y][1..] == [] && [x] + "" == [x] && [y] + "" == [y];
    assert Split([y], ',') == [[y]];
    assert Split([',', y], ',') == [[], [y]];
    assert Split([',', ',', y], ',') == [[], [], [y]];
  }

  lemma TrimNothing()
    ensures Trim([]) == []
  {
  }

  lemma TrimOneChar(c: char)
    requires !IsTrimChar(c)
    ensures Trim([c]) == [c]
  {
    TrimUnpadded([c]);
  }

  lemma KeepTruthyExample()
    ensures KeepTruthy(["a", "", "b"], 0) == [(0, "a"), (2, "b")]
  {
    var pieces := ["a", "", "b"];
    assert pieces[1..] == ["", "b"] && pieces[1..][1..] == ["b"];
    KeepTruthyStep(["b"], 2);
    KeepTruthyStep(["", "b"], 1);
    KeepTruthyStep(pieces, 0);
  }

  /** One step of `array_filter`: the first entry is kept under its key when
      truthy, then the rest follow. */
  lemma KeepTruthyStep(values: seq<string>, key: nat)
    requires values != []
    ensures KeepTruthy(values, key) ==
      (if Truthy(values[0]) then [(key, values[0])] else []) + KeepTruthy(values[1..], key + 1)
  {
  }

  /** The topics as the update evidently means them (`array_values` of the
      filtered array): the trimmed comma-separated pieces that are truthy, in
      order. Their JSON form is always a list. */
  function SplitTopics(s: string): (topics: seq<string>)
    ensures topics == TruthyOnly(TrimmedPieces(s))
    ensures forall k :: 0 <= k < |topics| ==> Truthy(topics[k]) && TrimmedPiece(topics[k])
    ensures JsonEncode(seq(|topics|, k requires 0 <= k < |topics| => (k as nat, topics[k]))) == JArray(topics)
  {
    var kept := TopicsAsWritten(s);
    KeptPiecesAreTrimmed(s);
    ValuesKeepTruthy(TrimmedPieces(s), 0);
    var topics := Values(kept);
    IndexedIsList(topics);
    topics
  }

  /** The truthy values of a list, in order: `array_values(array_filter(values))`. */
  function TruthyOnly(values: seq<string>): (r: seq<string>)
    ensures |r| <= |values|
    ensures forall k :: 0 <= k < |r| ==> Truthy(r[k]) && r[k] in values
    ensures forall k :: 0 <= k < |values| && Truthy(values[k]) ==> values[k] in r
    decreases |values|
  {
    if values == [] then []
    else (if Truthy(values[0]) then [values[0]] else []) + TruthyOnly(values[1..])
  }

  /** Dropping the keys of what `array_filter` kept leaves the truthy values in order. */
  lemma {:induction false} ValuesKeepTruthy(values: seq<string>, key: nat)
    ensures Values(KeepTruthy(values, key)) == TruthyOnly(values)
    decreases |values|
  {
    if values != [] {
      ValuesKeepTruthy(values[1..], key + 1);
      var head: seq<(nat, string)> := if Truthy(values[0]) then [(key, values[0])] else [];
      ValuesAppend(head, KeepTruthy(values[1..], key + 1));
    }
  }

  lemma ValuesAppend(a: seq<(nat, string)>, b: seq<(nat, string)>)
    ensures Values(a + b) == Values(a) + Values(b)
  {
  }

  /** `array_filter` keeps every entry of a list whose values are all truthy. */
  lemma {:induction false} KeepAllTruthy(values: seq<string>, key: nat)
    requires forall k :: 0 <= k < |values| ==> Truthy(values[k])
    ensures |KeepTruthy(values, key)| == |values|
    ensures forall k :: 0 <= k < |values| ==> KeepTruthy(values, key)[k] == (key + k, values[k])
    decreases |values|
  {
    if values != [] {
      KeepAllTruthy(values[1..], key + 1);
      var r := KeepTruthy(values, key);
      assert r == [(key, values[0])] + KeepTruthy(values[1..], key + 1);
      forall k | 1 <= k < |values|
        ensures r[k] == (key + k, values[k])
      {
        assert values[1..][k - 1] == values[k];
      }
    }
  }

  /** When no piece is empty or "0" after trimming, the array as written is a
      list, and it is sent as exactly the topics the model sends. */
  lemma TopicsAgreeWithoutGaps(s: string)
    requires forall k :: 0 <= k < |TrimmedPieces(s)| ==> Truthy(TrimmedPieces(s)[k])
    ensures IsList(TopicsAsWritten(s))
    ensures JsonEncode(TopicsAsWritten(s)) == JArray(SplitTopics(s))
  {
    KeepAllTruthy(TrimmedPieces(s), 0);
    ValuesKeepTruthy(TrimmedPieces(s), 0);
  }

  /** What survives the filter is a truthy trimmed piece. */
  lemma KeptPiecesAreTrimmed(s: string)
    ensures forall k :: 0 <= k < |TopicsAsWritten(s)| ==>
      Truthy(TopicsAsWritten(s)[k].1) && TrimmedPiece(TopicsAsWritten(s)[k].1)
  {
    var pieces := TrimmedPieces(s);
    var kept := KeepTruthy(pieces, 0);
    KeepTruthyKeeps(pieces, 0);
    forall k | 0 <= k < |kept|
      ensures Truthy(kept[k].1) && TrimmedPiece(kept[k].1)
    {
      assert kept[k].1 == pieces[kept[k].0];
    }
  }

  /** Values keyed 0, 1, 2, ... in order encode as the list of the values. */
  lemma IndexedIsList(values: seq<string>)
    ensures JsonEncode(seq(|values|, k requires 0 <= k < |values| => (k as nat, values[k]))) == JArray(values)
  {
    var indexed := seq(|values|, k requires 0 <= k < |values| => (k as nat, values[k]));
    assert IsList(indexed);
    assert Values(indexed) == values;
  }

  /** The keys of update entries, in order (`array_keys`). */
  function Keys(entries: seq<(string, Value)>): (r: seq<string>)
    ensures |r| == |entries| && forall k :: 0 <= k < |r| ==> r[k] == entries[k].0
  {
    seq(|entries|, k requires 0 <= k < |entries| => entries[k].0)
  }

  /** The PATCH body of an update: the allow-listed entries with a string
      `topics` split into a list; `None` when nothing is left to send. */
  function PatchBody(updates: seq<(string, Value)>): (body: Option<seq<(string, Value)>>)
    ensures body.None? <==> forall k :: 0 <= k < |updates| ==> updates[k].0 !in UpdatableFields
    ensures body.Some? ==> (|body.value| == |AllowedUpdates(updates)| &&
      forall k :: 0 <= k < |body.value| ==>
        var (key, v) := AllowedUpdates(updates)[k];
        body.value[k].0 == key && body.value[k].0 in UpdatableFields &&
        body.value[k].1 == (if key == "topics" && v.Str? then StrList(SplitTopics(v.s)) else v))
    ensures body.Some? ==> Keys(body.value) == Keys(AllowedUpdates(updates))
  {
    var allowed := AllowedUpdates(updates);
    if allowed == [] then
      None
    else
      assert allowed[0] in updates;
      Some(seq(|allowed|, k requires 0 <= k < |allowed| =>
        var (key, v) := allowed[k];
        (key, if key == "topics" && v.Str? then StrList(SplitTopics(v.s)) else v)))
  }

  /** Updating a repository: with no allow-listed field it reports success with
      "No changes to sync" and sends nothing, so the reply does not matter;
      otherwise the PATCH reply decides, and the updated fields it reports are
      allow-listed keys, in the order given. */
  function UpdateRepository(name: string, updates: seq<(string, Value)>, reply: Reply<()>): (r: RepoResult<seq<string>>)
    ensures PatchBody(updates).None? ==> r == Success("No changes to sync", None)
    ensures PatchBody(updates).Some? ==> (r.Success? <==> reply.Ok?)
    ensures PatchBody(updates).Some? && reply.Err? ==>
      r == Failure(reply.message.GetOr("Failed to update repository"), reply.status)
    ensures PatchBody(updates).Some? && reply.Ok? ==>
      r == Success("Repository '" + name + "' has been updated on GitHub",
        Some(Keys(AllowedUpdates(updates))))
    ensures r.Success? && r.data.Some? ==> forall k :: 0 <= k < |r.data.value| ==> r.data.value[k] in UpdatableFields
  {
    match PatchBody(updates)
    case None => Success("No changes to sync", None)
    case Some(body) =>
      match reply
      case Ok(_) =>
        Success("Repository '" + name + "' has been updated on GitHub",
                Some(Keys(body)))
      case Err(_, _) => FailureOf(reply, "Failed to update repository")
  }

  /** When nothing is left after the allow-list no PATCH is sent: the result is
      the same whatever the API would have replied. */
  lemma NoChangesSendsNothing(name: string, updates: seq<(string, Value)>, a: Reply<()>, b: Reply<()>)
    requires forall k :: 0 <= k < |updates| ==> updates[k].0 !in UpdatableFields
    ensures UpdateRepository(name, updates, a) == UpdateRepository(name, updates, b) == Success("No changes to sync", None)
  {
  }
}
