# DevVault activity feed, modelled in Dafny

DevVault is a Laravel/Filament dashboard that mirrors a GitHub account. This
project models the two pieces of logic that sit between the GitHub API and the
dashboard:

- **The GitHub service's normaliser** (`app/Services/GitHubService.php`). It
  turns a raw event into a one-line summary (`formatEventPayload`). It keeps
  only four event types in the activity feed. It maps repository, commit and
  comparison replies to the dashboard's records. It filters the fields of a
  repository update and splits its topics. It computes the contribution
  calendar's date range and its empty default. It also gives the result shapes
  of the create/delete/archive/exists calls and the cache keys and lifetimes.
- **The "Recent Activity" widget** (`app/Filament/Widgets/RecentActivity.php`).
  It groups bursts of pushes to the same repository into one record
  (`groupSimilarEvents`). It merges a burst by re-reading the commit count, the
  branch and the first message out of each push's summary (`mergePushEvents`).
  It filters the feed to the selected period. It buckets the list by month. It
  maps event types to icons and colours. It keeps the widget's `showAll` and
  `selectedYear` state.

Files:

| file | module | contents |
|---|---|---|
| `wrappers.dfy` | `Wrappers` | `Option` and PHP's `??` (`GetOr`) |
| `php_text.dfy` | `PhpText` | PHP truthiness, `str_starts_with`, decimal printing and `(int)` parsing, `str_replace`, `explode`/`implode`, `trim`, truncation |
| `github_service.dfy` | `GitHubService` | the service's records, replies and pure operations |
| `recent_activity.dfy` | `RecentActivity` | the three regexes, the merge (a method proved against `Merged`), the grouping (a method proved against `Grouped`), the period filter, month buckets, icons and colours |
| `grouping_proofs.dfy` | `GroupingProofs` | partition, order, window, identity, non-push pass-through, separation and idempotence of the grouping |
| `merge_proofs.dfy` | `MergeProofs` | the print/parse round trip between the formatter and the merge's regexes, and what a merge of formatted summaries yields |
| `widget.dfy` | `ActivityWidget` | the `Widget` class with its two fields, `mount`, `updateYear`, `loadMore`, `getEvents` and `getGroupedEvents` |

The grouping is specified by a scan over positions. `ScanTo(events, i)` is the
list of groups and the set of used positions after the outer loop has visited
positions `0..i-1`. `Grouped(events)` renders the final groups, and the
imperative `GroupSimilarEvents` is proved to return exactly that. Its inner
loop lives in `CollectSimilar`. The merge is specified by `Merged(group)`, and
the imperative `MergePushEvents` is proved to return exactly that.

Details of the code the model follows:

- A push's branch has every occurrence of `refs/heads/` removed, not just a
  leading one.
- The merged suffix is `" (+ k more)"`, with a space after `+`.
- A push text whose count does not parse contributes no message either.
- A group whose counts add up to 0 is emitted as its unchanged anchor.
- The formatter's count phrase depends on the comparison's `total_commits`
  being greater than 0, not on how many commit messages resolved.

## Model

| member | source | states |
|---|---|---|
| `PhpText.NatToStringRoundTrip` | app/Services/GitHubService.php:331 | reading back the decimal rendering of a count gives the count (interpolation, then `(int)` of `\d+`) |
| `PhpText.IntToStringInjective` | app/Services/GitHubService.php:62 | distinct integers interpolate to distinct strings |
| `PhpText.RemoveAllAbsent` | app/Services/GitHubService.php:312 | `str_replace` leaves a string without the pattern unchanged |
| `PhpText.RemoveAllLeading` | app/Services/GitHubService.php:312 | a leading occurrence is deleted and the scan continues after it |
| `PhpText.SplitJoin` | app/Services/GitHubService.php:205 | `implode` of `explode` on a one-character separator is the identity |
| `PhpText.SplitFirstPiece` | app/Services/GitHubService.php:325 | `explode("\n", m)[0]` is a prefix of `m` that ends at the end of `m` or at its first newline |
| `PhpText.Trim` | app/Services/GitHubService.php:205 | `trim` gives the slice of its argument left between the leading and the trailing run of the six trimmed characters: everything cut off on either side is one of them, and the slice neither starts nor ends with one |
| `PhpText.TrimUnpadded` | app/Services/GitHubService.php:205 | a string with no padding is its own `trim` |
| `PhpText.Truncate` | app/Services/GitHubService.php:326 | a string longer than n becomes its first n characters plus "...", otherwise it is kept; the result has at most n+3 characters |
| `GitHubService.CacheKeysSeparateYearsAndLimits` | app/Services/GitHubService.php:62 | different years, and different limits, get different cache keys |
| `GitHubService.ToComparison` | app/Services/GitHubService.php:289-303 | a failed compare gives no comparison; otherwise `total_commits` defaults to 0, and `commits` defaults to empty and maps one for one to (sha, message) |
| `GitHubService.RecentCommits` | app/Services/GitHubService.php:235-247 | a failed call gives no commits; otherwise one record per commit, in order, with sha, message, author name, date and URL copied |
| `GitHubService.PushSummaryWording` | app/Services/GitHubService.php:328-337 | `PushSummary` with `CountPhrase`: a count of 1 reads "Pushed 1 commit to {b}", any other reads "Pushed {n} commits to {b}" |
| `GitHubService.Headline` | app/Services/GitHubService.php:324-326 | the message shown is the first line, cut to 60 characters plus "..." when longer; it has no newline and at most 63 characters |
| `GitHubService.FormatPush` | app/Services/GitHubService.php:310-341 | every push text starts with "Pushed " |
| `GitHubService.FormatCreate` | app/Services/GitHubService.php:343-349 | every create text starts with "Created " |
| `GitHubService.FormatTitled` | app/Services/GitHubService.php:351-365 | every issue or pull request text starts with its noun |
| `GitHubService.FormatEventPayload` | app/Services/GitHubService.php:307-370 | each allowed type's text starts with its own wording; any other type's text is the type itself |
| `GitHubService.PushWithMessage` | app/Services/GitHubService.php:316-332 | with a truthy before/head, a repo, and a comparison with total n>0 and commits, the text is the n-commit summary on the branch followed by ": " and the headline |
| `GitHubService.PushWithoutMessages` | app/Services/GitHubService.php:335-337 | the same with an empty commit list, without the ": {message}" part |
| `GitHubService.PushFallback` | app/Services/GitHubService.php:316-341 | with before, head or repo missing or falsy, no comparison, or a total of at most 0, the text is "Pushed to {b}", or "Pushed commits" when b is falsy |
| `GitHubService.BranchOfHeadsRef` | app/Services/GitHubService.php:311-312 | the ref "refs/heads/" + b gives b when b has no further "refs/heads/" |
| `GitHubService.BranchOf` | app/Services/GitHubService.php:311-312 | a missing ref gives the empty branch, and deleting "refs/heads/" never lengthens the ref |
| `GitHubService.BranchOfPlain` | app/Services/GitHubService.php:312 | a ref in which "refs/heads/" does not occur is the branch name unchanged |
| `GitHubService.CreateText` | app/Services/GitHubService.php:343-349 | "Created {ref_type}: {ref}" for a truthy ref, otherwise "Created {ref_type}"; ref_type defaults to "unknown" |
| `GitHubService.IssueText` | app/Services/GitHubService.php:351-357 | "Issue {action}: {title}" with titles over 40 characters cut to 40 plus "..."; without a truthy title, "Issue {action}"; action defaults to "unknown" |
| `GitHubService.PullRequestText` | app/Services/GitHubService.php:359-365 | the same for "Pull request" |
| `GitHubService.Retained` | app/Services/GitHubService.php:260-263 | only events of the four allowed types are kept, and only events from the input |
| `GitHubService.RetainedAppend` | app/Services/GitHubService.php:260-263 | the allow-list filter works element by element: filtering a concatenation concatenates the filtered parts, so input order is kept |
| `GitHubService.RetainedSingle` | app/Services/GitHubService.php:262 | a single event is kept exactly when its type is allowed |
| `GitHubService.RecentEvents` | app/Services/GitHubService.php:259-277 | a failed call gives no events; otherwise one record per retained event (`Normalize`, lines 264-271), in order, with id, type, repo, `created_at` and time copied, the summary `FormatEventPayload` renders, and no message list |
| `GitHubService.FetchRepositories` | app/Services/GitHubService.php:43-57 | a failed call gives no repos; otherwise one record per repo, fields copied, topics defaulting to the empty list |
| `GitHubService.CalendarRange` | app/Services/GitHubService.php:81-82 | the query spans "{y}-01-01T00:00:00Z" to "{y}-12-31T23:59:59Z" |
| `GitHubService.ContributionsForYear` | app/Services/GitHubService.php:94-104 | an answered query with a calendar gives that calendar; a failed call or a missing calendar gives exactly zero contributions and no weeks |
| `GitHubService.CreateRepository` | app/Services/GitHubService.php:118-140 | success exactly on a successful reply; it then carries the new repository's id, name, full name, description, `html_url` as its URL, clone and SSH URLs and privacy flag, with no message; otherwise the reply's message or "Failed to create repository", with the status |
| `GitHubService.RepositoryExists` | app/Services/GitHubService.php:143-149 | a repository exists exactly when the lookup succeeds |
| `GitHubService.DeleteRepository` | app/Services/GitHubService.php:151-168 | success exactly on a successful reply, with the "has been deleted" message; otherwise the reply's message or the fallback, and its status |
| `GitHubService.ArchiveRepository` | app/Services/GitHubService.php:170-189 | the same with "has been archived" |
| `GitHubService.AllowedUpdates` | app/Services/GitHubService.php:193-194 | exactly the updates whose key is description, homepage or topics survive |
| `GitHubService.AllowedUpdatesAppend` | app/Services/GitHubService.php:193-194 | the allow-list works entry by entry: filtering a concatenation concatenates the filtered parts, so the order of `$updates` is kept |
| `GitHubService.AllowedUpdatesSingle` | app/Services/GitHubService.php:193-194 | a single entry survives exactly when its key is description, homepage or topics |
| `GitHubService.TrimmedPieces` | app/Services/GitHubService.php:205 | one piece per piece of `explode(',', s)`, in order, each the `trim` of that piece, so no piece holds a comma or starts or ends with a trimmed character |
| `GitHubService.TopicsAsWritten` | app/Services/GitHubService.php:204-206 | the array `array_filter` leaves holds only truthy trimmed pieces, each under its position in the split, in increasing key order, and holds every truthy piece |
| `GitHubService.KeepTruthyKeeps` | app/Services/GitHubService.php:204-206 | `array_filter` keeps only truthy values, each under its original key, with the keys increasing |
| `GitHubService.KeepTruthyComplete` | app/Services/GitHubService.php:204-206 | every truthy value survives `array_filter`, under its original key |
| `GitHubService.TopicsAsWrittenSendsObject` | app/Services/GitHubService.php:203-210 | "a,,b" leaves keys 0 and 2, which JSON-encode as an object |
| `GitHubService.SplitTopics` | app/Services/GitHubService.php:203-207 | the topics sent are the truthy trimmed pieces, in order (`TruthyOnly` of the pieces); each is non-empty, not "0", comma-free and trimmed, and they encode as a JSON array |
| `GitHubService.TruthyOnly` | app/Services/GitHubService.php:204-206 | the truthy values of a list in order: only truthy values from the list, and every one of them |
| `GitHubService.ValuesKeepTruthy` | app/Services/GitHubService.php:204-206 | dropping the keys of what `array_filter` kept leaves exactly the truthy values in order |
| `GitHubService.KeepAllTruthy` | app/Services/GitHubService.php:204-206 | when every value is truthy `array_filter` keeps every entry under its own key |
| `GitHubService.TopicsAgreeWithoutGaps` | app/Services/GitHubService.php:203-207 | when no piece is empty or "0" after trimming, the array as written is a list and is sent as exactly the topics `SplitTopics` gives |
| `GitHubService.PatchBody` | app/Services/GitHubService.php:193-207 | no body exactly when no allowed key is present; otherwise the allowed updates in order, with a string of topics split |
| `GitHubService.UpdateRepository` | app/Services/GitHubService.php:191-225 | nothing allowed gives success with "No changes to sync" and no data; otherwise a successful reply gives success with "Repository '{name}' has been updated on GitHub" and the allowed keys in the order given (`array_keys`), and a failed reply gives its message or "Failed to update repository" with the status |
| `GitHubService.NoChangesSendsNothing` | app/Services/GitHubService.php:196-201 | with no allowed key the reply is never consulted |
| `RecentActivity.DigitRun` | app/Filament/Widgets/RecentActivity.php:113 | `\d+` takes the longest run of digits |
| `RecentActivity.LineEnd` | app/Filament/Widgets/RecentActivity.php:116 | `.+` stops at the first newline |
| `RecentActivity.BranchRun` | app/Filament/Widgets/RecentActivity.php:123 | `[^\s:]+` stops at the first white space or colon |
| `RecentActivity.Preview` | app/Filament/Widgets/RecentActivity.php:128-131 | the preview is empty exactly when there is no message; otherwise it starts with ": {first}", is just that for one message, and for more ends in " (+ {k} more)" with k the number after the first |
| `RecentActivity.TotalCommitsAppend` | app/Filament/Widgets/RecentActivity.php:112-114 | counts are added member by member: the total over two parts of a group is the sum of their totals |
| `RecentActivity.MessagesAppend` | app/Filament/Widgets/RecentActivity.php:115-119 | messages are collected member by member: those of two parts of a group are the first part's followed by the second's |
| `RecentActivity.Merged` | app/Filament/Widgets/RecentActivity.php:106-143 | the merged record keeps the anchor's id, type, repo and time; with total 0 it is the anchor unchanged; otherwise its text is the total on the first branch ("main" if none) with the preview, and the message list is replaced exactly when there are two or more messages |
| `RecentActivity.MergePushEvents` | app/Filament/Widgets/RecentActivity.php:106-143 | the loop computes exactly `Merged` |
| `RecentActivity.MembersBelow` | app/Filament/Widgets/RecentActivity.php:75-94 | the positions taken into a group are exactly the unused pushes to the anchor's repo within 3600 minutes of the anchor, in increasing order |
| `RecentActivity.ScanTo` | app/Filament/Widgets/RecentActivity.php:61-101 | after any number of steps the groups are non-empty lists of valid positions and the used set holds valid positions |
| `RecentActivity.RenderAppend` | app/Filament/Widgets/RecentActivity.php:96-100 | a new group appends exactly its record to the output |
| `RecentActivity.GroupSimilarEvents` | app/Filament/Widgets/RecentActivity.php:56-104 | the nested loops compute exactly `Grouped` |
| `RecentActivity.CollectSimilar` | app/Filament/Widgets/RecentActivity.php:71-94 | the inner loop collects the anchor and its members, in order, and marks them used |
| `RecentActivity.PickAppend` | app/Filament/Widgets/RecentActivity.php:90 | appending a member appends its event |
| `RecentActivity.InPeriod` | app/Filament/Widgets/RecentActivity.php:38-51 | the filter keeps exactly the feed's records whose time starts with the prefix, and nothing else |
| `RecentActivity.InPeriodAppend` | app/Filament/Widgets/RecentActivity.php:45-50 | the period filter works record by record: filtering a concatenation concatenates the filtered parts, so the feed's order is kept |
| `RecentActivity.InPeriodSingle` | app/Filament/Widgets/RecentActivity.php:45-50 | a single record is kept exactly when its `created_at` starts with the prefix |
| `RecentActivity.Distinct` | app/Filament/Widgets/RecentActivity.php:154-156 | month keys appear once each, and exactly the labels that occur appear |
| `RecentActivity.MonthStep` | app/Filament/Widgets/RecentActivity.php:150-159 | one more record adds its label if new and joins only its own month, at the end |
| `RecentActivity.NotInMonth` | app/Filament/Widgets/RecentActivity.php:154-156 | a month no record falls in has no bucket contents |
| `RecentActivity.InMonthMembers` | app/Filament/Widgets/RecentActivity.php:154-158 | a month's bucket holds only records of that month, taken from the list, and every record of that month |
| `RecentActivity.GroupByMonth` | app/Filament/Widgets/RecentActivity.php:145-162 | the loop builds buckets for exactly the labels that occur, in first-appearance order, each holding its month's records in feed order |
| `RecentActivity.ActivityIcon` | app/Filament/Widgets/RecentActivity.php:169-178 | the document icon is given exactly to types outside the four |
| `RecentActivity.ActivityColor` | app/Filament/Widgets/RecentActivity.php:180-189 | gray is given exactly to types outside the four |
| `RecentActivity.IconsAndColorsTellTypesApart` | app/Filament/Widgets/RecentActivity.php:169-189 | different allowed types get different icons and different colours |
| `GroupingProofs.MembersJoin` | app/Filament/Widgets/RecentActivity.php:75-94 | a push anchor's members are distinct unused positions that meet the same-repo, within-window test, and all such positions are members |
| `GroupingProofs.VisitCover` | app/Filament/Widgets/RecentActivity.php:61-101 | one visit of the outer loop keeps the groups free of repeats, places exactly the taken pushes and the other events visited so far, and takes every push visited |
| `GroupingProofs.VisitWindow` | app/Filament/Widgets/RecentActivity.php:75-94 | after one visit every non-anchor member of a group is a push to the anchor's repo within 3600 minutes of it |
| `GroupingProofs.VisitFar` | app/Filament/Widgets/RecentActivity.php:75-94 | after one visit no untaken event could join an existing group, and no later anchor could have joined an earlier group |
| `GroupingProofs.GroupsPartition` | app/Filament/Widgets/RecentActivity.php:56-104 | every input position is in exactly one group |
| `GroupingProofs.GroupsOrderAndWindow` | app/Filament/Widgets/RecentActivity.php:61-94 | at most one group per input, anchors in increasing order, and every other member of a group is a push to the anchor's repo within 3600 minutes of the anchor |
| `GroupingProofs.EmitIdentity` | app/Filament/Widgets/RecentActivity.php:96-100 | `Emit`: a group's record keeps the anchor's id, type, repo and time, and a single-event group is emitted unchanged |
| `GroupingProofs.GroupedIdentity` | app/Filament/Widgets/RecentActivity.php:56-104 | `Grouped`: the output has one record per group and is no longer than the input, and each output record carries its anchor's identity and time |
| `GroupingProofs.GroupedTimesFromInput` | app/Filament/Widgets/RecentActivity.php:38-54 | grouping a period-filtered feed keeps every time in the period |
| `GroupingProofs.NonPushPassThrough` | app/Filament/Widgets/RecentActivity.php:66-69 | non-push events come out unchanged, all of them, in their original relative order |
| `GroupingProofs.GroupedSeparated` | app/Filament/Widgets/RecentActivity.php:56-104 | in the output, any two pushes to the same repo are more than 3600 minutes apart |
| `GroupingProofs.SeparatedFixed` | app/Filament/Widgets/RecentActivity.php:61-101 | a feed with no two close pushes to the same repo is left as it is |
| `GroupingProofs.GroupingIdempotent` | app/Filament/Widgets/RecentActivity.php:56-104 | grouping the output again returns it unchanged |
| `MergeProofs.CountOfSummary` | app/Filament/Widgets/RecentActivity.php:113 | `/Pushed (\d+) commits? to/` reads the count n back out of any n-commit summary |
| `MergeProofs.CountIsLeftmost` | app/Filament/Widgets/RecentActivity.php:113 | the count read (`CommitCountOf`, the search `FindCount`) is the match at the first position where the pattern matches, and none when no position matches |
| `MergeProofs.NoCountAnywhere` | app/Filament/Widgets/RecentActivity.php:113 | when no count is read, the pattern matches at no position |
| `MergeProofs.CountAtDigits` | app/Filament/Widgets/RecentActivity.php:113 | "Pushed " followed by digits and " commit(s) to" matches at that position with the digits' value |
| `MergeProofs.MessageIsLeftmost` | app/Filament/Widgets/RecentActivity.php:116 | the message read (`MessageOf`, the search `FindMessage`) is the match at the first position where `/: (.+)$/` matches, and none when no position matches |
| `MergeProofs.NoMessageAnywhere` | app/Filament/Widgets/RecentActivity.php:116 | when no message is read, `/: (.+)$/` matches at no position |
| `MergeProofs.MessageAtLine` | app/Filament/Widgets/RecentActivity.php:116 | ": " followed by one line to the end of the text matches there, giving that line |
| `MergeProofs.BranchIsLeftmost` | app/Filament/Widgets/RecentActivity.php:122-125 | the branch read (`BranchNameOf`, the search `FindBranch`) is the match at the first position where `/to ([^\s:]+)/` matches, and none when no position matches |
| `MergeProofs.NoBranchAnywhere` | app/Filament/Widgets/RecentActivity.php:122-125 | when no branch is read, the pattern matches at no position |
| `MergeProofs.BranchAtPlain` | app/Filament/Widgets/RecentActivity.php:122-125 | "to " followed by a branch without space or colon, then a space, colon or the end, matches there, giving the branch |
| `MergeProofs.BranchOfSummary` | app/Filament/Widgets/RecentActivity.php:122-125 | `/to ([^\s:]+)/` reads the branch back out of a summary when the branch has no space or colon |
| `MergeProofs.MessageOfSummary` | app/Filament/Widgets/RecentActivity.php:116 | `/: (.+)$/` reads a one-line message back out of a summary |
| `MergeProofs.SummaryRoundTrip` | app/Filament/Widgets/RecentActivity.php:113-125 | count, branch and message all come back from "Pushed n commit(s) to b: m" |
| `MergeProofs.FormattedPushRoundTrip` | app/Services/GitHubService.php:328-331 | the merge recovers from a formatted push exactly the comparison's total, the branch and the headline |
| `MergeProofs.FallbackHasNoCount` | app/Services/GitHubService.php:341 | "Pushed to {b}" and "Pushed commits" carry no count for the merge to read |
| `MergeProofs.MergeOfParsed` | app/Filament/Widgets/RecentActivity.php:112-120 | when every text reads, the total is the sum of the counts and the messages are the members' messages in order |
| `MergeProofs.MergedSummaries` | app/Filament/Widgets/RecentActivity.php:127-139 | merging formatted summaries gives the summed total on the first branch with the first message and "(+ k more)", and sets `all_messages` exactly when there are two or more |
| `MergeProofs.UncountedAddNothing` | app/Filament/Widgets/RecentActivity.php:112-120 | texts without a count add neither commits nor messages |
| `MergeProofs.FallbacksKeepAnchor` | app/Filament/Widgets/RecentActivity.php:127-142 | a group of fallback texts merges to its unchanged anchor |
| `MergeProofs.TwoPushesExample` | app/Filament/Widgets/RecentActivity.php:127-139 | pushes of 3 and 2 commits with "fix a" and "fix b" merge to 5 commits with ": fix a (+ 1 more)" and both messages |
| `MergeProofs.ExamplePreview` | app/Filament/Widgets/RecentActivity.php:128-131 | the preview of two messages is ": {first} (+ 1 more)" |
| `ActivityWidget.Widget.constructor` | app/Filament/Widgets/RecentActivity.php:17-19 | a new widget shows one period and has no year selected |
| `ActivityWidget.Widget.Mount` | app/Filament/Widgets/RecentActivity.php:21-24 | mounting selects the current year unless a year is already selected |
| `ActivityWidget.Widget.UpdateYear` | app/Filament/Widgets/RecentActivity.php:26-31 | a year change selects that year and goes back to one period |
| `ActivityWidget.Widget.LoadMore` | app/Filament/Widgets/RecentActivity.php:164-167 | "load more" shows everything and keeps the year |
| `ActivityWidget.Widget.GetEvents` | app/Filament/Widgets/RecentActivity.php:33-54 | the listed events are the grouped feed of the visible period, and without `showAll` every listed time starts with the current "Y-m" in the current year, or with the selected year otherwise |
| `ActivityWidget.Widget.GetGroupedEvents` | app/Filament/Widgets/RecentActivity.php:145-162 | the month buckets of the listed events, in first-appearance order |
| `ActivityWidget.Visible` | app/Filament/Widgets/RecentActivity.php:36-52 | with `showAll` the whole feed is listed; otherwise exactly the feed's records whose `created_at` starts with the period prefix (`PeriodPrefix`): the current "Y-m" when the selected year (the current one if none) is this year, otherwise the year |
| `ActivityWidget.OtherYearsAreDisjoint` | app/Filament/Widgets/RecentActivity.php:45-50 | two different past or future years of the same width never admit the same event |

## Left out

- HTTP calls, URLs, query parameters, the token and `config()` reads are not modelled. Each reply is an input value: an `Option` for fetches, a `Reply` for the mutating calls, and a function parameter for the compare endpoint.
- Laravel's `Cache::remember` is a library outside the model. Only the cache keys and lifetimes are recorded as constants. Failure defaults are returned from inside the cached closures, so the code does cache them; the model does not claim otherwise.
- `getRepositories`' `$fromCache` switch only chooses between the cache and a direct fetch, so it is not modelled.
- Carbon is a library outside the model. A record's time is an abstract whole number of minutes (`at`) beside its `created_at` string. `diffInMinutes` is taken as the difference of the two `at` values. Carbon measures the difference from the full timestamps, seconds included, so when two times' seconds differ the code and the model can decide differently at exactly the 3600-minute boundary. `now()` is a `Clock` parameter holding the year and the "Y-m" string. `format('F Y')` is the `monthOf` parameter.
- Strings are sequences of characters with one character per byte. Text is taken to be ASCII, so `strlen` and `substr` count characters.
- PHP integers are 64-bit; the model's counts and years are unbounded, so overflow of a commit total is not modelled.
- `updateRepository`'s `$updates` is a list of key/value pairs. A PHP array cannot repeat a key; the model does not enforce that.
- `updateYear` takes an untyped argument, which PHP coerces to the `?int` field; the model takes an `int`.
- `createRepository`'s request fields (`private`, `auto_init`) only go into the HTTP body, so they are not modelled.
- `GitHubService.PatchBody`, `GitHubService.UpdateRepository`: a string of topics is sent as the list `SplitTopics` gives, not as the keyed array `array_filter` leaves (`TopicsAsWritten`); the two agree when no piece is empty or "0" (`TopicsAgreeWithoutGaps`), and the difference is the finding below.
- `ActivityWidget.OtherYearsAreDisjoint`: holds only for years whose decimal forms have the same width, because "2" is a prefix of "2024".
- Other files of the repository are not part of this model: the contributions heatmap and overview widgets, the Filament resources and pages, the Blade views, the sync command, the controller, the model and the migration.

## Findings

| source | as written | input that shows it | evidently intended | confidence | as-written member | corrected member |
|---|---|---|---|---|---|---|
| app/Services/GitHubService.php:204-206 | `array_filter` keeps the keys of the topics it keeps, so an empty piece leaves a gap and the topics JSON-encode as an object rather than a list | topics "a,,b" leave keys 0 and 2, which encode as `{"0":"a","2":"b"}` | the topics are sent as a JSON array, e.g. `array_values(array_filter(...))` | medium, not executed | `GitHubService.TopicsAsWrittenSendsObject` | `GitHubService.SplitTopics` |
