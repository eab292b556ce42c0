/** The recent-activity widget's logic: it collapses bursts of pushes to one
    repository into a single record, re-reading each push's commit count, branch
    and message out of its rendered summary. */
module RecentActivity {
  import opened Wrappers
  import opened PhpText
  import opened GitHubService

  /** A push joins a group when it is this many minutes or fewer from the
      group's first push. */
  const WindowMinutes := 3600

  function Abs(x: int): nat {
    if x < 0 then -x else x
  }

  // ---------------------------------------------------------------------------
  // Re-reading a rendered push summary. Each regex is the leftmost match, as
  // `preg_match` finds it.

  /** The length of the run of digits `s` starts with. */
  function DigitRun(s: string): (k: nat)
    ensures k <= |s| && AllDigits(s[..k])
    ensures k < |s| ==> !IsDigit(s[k])
    decreases |s|
  {
    if s == [] || !IsDigit(s[0]) then 0
    else
      var k := 1 + DigitRun(s[1..]);
      assert forall i :: 1 <= i < k ==> s[..k][i] == s[1..][..k - 1][i - 1];
      k
  }

  /** `/Pushed (\d+) commits? to/` tried at position p. The digit run is
      greedy, and no shorter run can be followed by " commit". */
  function CountAt(s: string, p: nat): Option<nat>
    requires p <= |s|
  {
    if StartsWith(s[p..], "Pushed ") then
      var digits := DigitRun(s[p + 7..]);
      var after := s[p + 7 + digits..];
      if digits > 0 && (StartsWith(after, " commits to") || StartsWith(after, " commit to")) then
        assert s[p + 7..][..digits] == s[p + 7..p + 7 + digits];
        Some(DigitsValue(s[p + 7..p + 7 + digits]))
      else None
    else None
  }

  function FindCount(s: string, p: nat): Option<nat>
    requires p <= |s|
    decreases |s| - p
  {
    if CountAt(s, p).Some? then CountAt(s, p)
    else if p == |s| then None
    else FindCount(s, p + 1)
  }

  /** The commit count of a push summary, `(int)` of the first group of
      `/Pushed (\d+) commits? to/`; `None` when the text does not match. */
  function CommitCountOf(text: string): Option<nat> {
    FindCount(text, 0)
  }

  /** The length of the text before the first line break. */
  function LineEnd(s: string): (k: nat)
    ensures k <= |s| && '\n' !in s[..k]
    ensures k < |s| ==> s[k] == '\n'
    decreases |s|
  {
    if s == [] || s[0] == '\n' then 0
    else
      var k := 1 + LineEnd(s[1..]);
      assert forall i :: 1 <= i < k ==> s[..k][i] == s[1..][..k - 1][i - 1];
      k
  }

  /** `/: (.+)$/` tried at position p: `.` stops at a line break and `$`
      matches at the end or before a final line break. */
  function MessageAt(s: string, p: nat): Option<string>
    requires p <= |s|
  {
    if StartsWith(s[p..], ": ") then
      var rest := s[p + 2..];
      var k := LineEnd(rest);
      if k > 0 && (k == |rest| || k + 1 == |rest|) then Some(rest[..k]) else None
    else None
  }

  function FindMessage(s: string, p: nat): Option<string>
    requires p <= |s|
    decreases |s| - p
  {
    if MessageAt(s, p).Some? then MessageAt(s, p)
    else if p == |s| then None
    else FindMessage(s, p + 1)
  }

  /** The commit message of a push summary: the text after its first ": " that
      matches `/: (.+)$/`. */
  function MessageOf(text: string): Option<string> {
    FindMessage(text, 0)
  }

  /** `\s` of PCRE: space, tab, line feed, vertical tab, form feed, carriage return. */
  predicate IsSpace(c: char) {
    c == ' ' || 9 <= c as int <= 13
  }

  /** The length of the run of characters other than `\s` and ':' that `s` starts with. */
  function BranchRun(s: string): (k: nat)
    ensures k <= |s|
    ensures forall i :: 0 <= i < k ==> !IsSpace(s[i]) && s[i] != ':'
    ensures k < |s| ==> IsSpace(s[k]) || s[k] == ':'
    decreases |s|
  {
    if s == [] || IsSpace(s[0]) || s[0] == ':' then 0 else 1 + BranchRun(s[1..])
  }

  /** `/to ([^\s:]+)/` tried at position p. */
  function BranchAt(s: string, p: nat): Option<string>
    requires p <= |s|
  {
    if StartsWith(s[p..], "to ") then
      var k := BranchRun(s[p + 3..]);
      if k > 0 then Some(s[p + 3..p + 3 + k]) else None
    else None
  }

  function FindBranch(s: string, p: nat): Option<string>
    requires p <= |s|
    decreases |s| - p
  {
    if BranchAt(s, p).Some? then BranchAt(s, p)
    else if p == |s| then None
    else FindBranch(s, p + 1)
  }

  /** The branch of a push summary: the first group of `/to ([^\s:]+)/`. */
  function BranchNameOf(text: string): Option<string> {
    FindBranch(text, 0)
  }

  // ---------------------------------------------------------------------------
  // Merging one group of pushes

  /** The sum of the commit counts that parse, over the group. */
  function TotalCommits(group: seq<Activity>): nat
    decreases |group|
  {
    if group == [] then 0
    else TotalCommits(group[..|group| - 1]) + CommitCountOf(group[|group| - 1].payload).GetOr(0)
  }

  /** The messages of the members whose count parses and whose message parses, in group order. */
  function Messages(group: seq<Activity>): seq<string>
    decreases |group|
  {
    if group == [] then []
    else
      var text := group[|group| - 1].payload;
      Messages(group[..|group| - 1]) +
        (if CommitCountOf(text).Some? && MessageOf(text).Some? then [MessageOf(text).value] else [])
  }

  /** ": {first message}" and, with two or more messages, " (+ {k} more)",
      where k counts the messages after the first. */
  function Preview(messages: seq<string>): (r: string)
    ensures r == "" <==> messages == []
    ensures messages != [] ==> StartsWith(r, ": " + messages[0])
    ensures |messages| == 1 ==> r == ": " + messages[0]
    ensures |messages| > 1 ==> r[|": " + messages[0]|..] == " (+ " + NatToString(|messages| - 1) + " more)"
  {
    (if messages == [] then "" else ": " + messages[0]) +
    (if |messages| > 1 then " (+ " + NatToString(|messages| - 1) + " more)" else "")
  }

  /** Counts are added member by member: the total over a group split in two
      is the sum of the parts' totals. */
  lemma {:induction false} TotalCommitsAppend(a: seq<Activity>, b: seq<Activity>)
    ensures TotalCommits(a + b) == TotalCommits(a) + TotalCommits(b)
    decreases |b|
  {
    if b == [] {
      assert a + b == a;
    } else {
      var ab := a + b;
      var init := b[..|b| - 1];
      assert ab[..|ab| - 1] == a + init && ab[|ab| - 1] == b[|b| - 1];
      TotalCommitsAppend(a, init);
      var c := CommitCountOf(b[|b| - 1].payload).GetOr(0);
      assert TotalCommits(ab) == TotalCommits(a + init) + c;
      assert TotalCommits(b) == TotalCommits(init) + c;
    }
  }

  /** Messages are collected member by member: those of a group split in two
      are the first part's followed by the second's. */
  lemma {:induction false} MessagesAppend(a: seq<Activity>, b: seq<Activity>)
    ensures Messages(a + b) == Messages(a) + Messages(b)
    decreases |b|
  {
    if b == [] {
      assert a + b == a;
    } else {
      var ab := a + b;
      var init := b[..|b| - 1];
      assert ab[..|ab| - 1] == a + init && ab[|ab| - 1] == b[|b| - 1];
      MessagesAppend(a, init);
      var text := b[|b| - 1].payload;
      var last := if CommitCountOf(text).Some? && MessageOf(text).Some? then [MessageOf(text).value] else [];
      MessagesStep(ab, a + init, text, last);
      MessagesStep(b, init, text, last);
      Rebracket(Messages(a), Messages(init), last);
    }
  }

  lemma MessagesStep(group: seq<Activity>, init: seq<Activity>, text: string, last: seq<string>)
    requires group != [] && init == group[..|group| - 1] && text == group[|group| - 1].payload
    requires last == if CommitCountOf(text).Some? && MessageOf(text).Some? then [MessageOf(text).value] else []
    ensures Messages(group) == Messages(init) + last
  {
  }

  /** The record a group of pushes becomes: the first push with its summary
      rewritten to the total commit count on the first push's branch ("main"
      when none parses), the first message and how many more there are. When no
      count adds up to more than 0 the first push is kept as it is. */
  function Merged(group: seq<Activity>): (r: Activity)
    requires group != []
    ensures r.id == group[0].id && r.kind == group[0].kind && r.repo == group[0].repo
    ensures r.createdAt == group[0].createdAt && r.at == group[0].at
    ensures TotalCommits(group) == 0 ==> r == group[0]
    ensures TotalCommits(group) > 0 ==>
      r.payload == PushSummary(TotalCommits(group), BranchNameOf(group[0].payload).GetOr("main"), Preview(Messages(group)))
    ensures r.allMessages != group[0].allMessages ==> r.allMessages == Some(Messages(group)) && |Messages(group)| >= 2
    ensures TotalCommits(group) > 0 && |Messages(group)| >= 2 ==> r.allMessages == Some(Messages(group))
  {
    var first := group[0];
    var total := TotalCommits(group);
    var messages := Messages(group);
    if total > 0 then
      first.(payload := PushSummary(total, BranchNameOf(first.payload).GetOr("main"), Preview(messages)),
             allMessages := if |messages| > 1 then Some(messages) else first.allMessages)
    else first
  }

  /** mergePushEvents: one pass over the group adds up the counts and collects
      the messages, then the first record's summary is rewritten. */
  method MergePushEvents(events: seq<Activity>) returns (merged: Activity)
    requires events != []
    ensures merged == Merged(events)
  {
    var first := events[0];
    var totalCommits: nat := 0;
    var allMessages: seq<string> := [];
    for i := 0 to |events|
      invariant totalCommits == TotalCommits(events[..i])
      invariant allMessages == Messages(events[..i])
    {
      TallyStep(events, i);
      var text := events[i].payload;
      var count := CommitCountOf(text);
      if count.Some? {
        totalCommits := totalCommits + count.value;
        var message := MessageOf(text);
        if message.Some? {
          allMessages := allMessages + [message.value];
        }
      }
    }
    assert events[..|events|] == events;
    var branch := "main";
    var found := BranchNameOf(first.payload);
    if found.Some? {
      branch := found.value;
    }
    assert branch == BranchNameOf(first.payload).GetOr("main");
    merged := first;
    if totalCommits > 0 {
      var preview := if |allMessages| > 0 then ": " + allMessages[0] else "";
      if |allMessages| > 1 {
        preview := preview + " (+ " + NatToString(|allMessages| - 1) + " more)";
      }
      assert preview == Preview(allMessages);
      var text :=
        if totalCommits == 1 then "Pushed 1 commit to " + branch + preview
        else "Pushed " + NatToString(totalCommits) + " commits to " + branch + preview;
      PushSummaryWording(totalCommits, branch, preview);
      assert text == PushSummary(TotalCommits(events), BranchNameOf(first.payload).GetOr("main"), Preview(Messages(events)));
      merged := merged.(payload := text);
      if |allMessages| > 1 {
        merged := merged.(allMessages := Some(allMessages));
      }
    }
  }

  /** One more member adds its parsed count and, when both parse, its message. */
  lemma TallyStep(events: seq<Activity>, i: nat)
    requires i < |events|
    ensures var text := events[i].payload;
      TotalCommits(events[..i + 1]) == TotalCommits(events[..i]) + CommitCountOf(text).GetOr(0) &&
      Messages(events[..i + 1]) == Messages(events[..i]) +
        (if CommitCountOf(text).Some? && MessageOf(text).Some? then [MessageOf(text).value] else [])
  {
    assert events[..i + 1][..i] == events[..i];
  }

  // ---------------------------------------------------------------------------
  // Grouping: the specification

  /** Whether event k joins the group of `anchor`: another unused push to the
      same repository, within the window of the anchor (inclusive, either side). */
  predicate Joins(events: seq<Activity>, anchor: nat, used: set<nat>, k: nat)
    requires anchor < |events| && k < |events|
  {
    k != anchor && k !in used && events[k].kind == PushEvent &&
    events[k].repo == events[anchor].repo && Abs(events[k].at - events[anchor].at) <= WindowMinutes
  }

  /** The indices below k that join the group of `anchor`, in increasing order. */
  function MembersBelow(events: seq<Activity>, anchor: nat, used: set<nat>, k: nat): (m: seq<nat>)
    requires anchor < |events| && k <= |events|
    ensures forall j :: 0 <= j < |m| ==> m[j] < k && Joins(events, anchor, used, m[j])
    ensures forall j :: 0 <= j < k && Joins(events, anchor, used, j) ==> j in m
    ensures forall a, b :: 0 <= a < b < |m| ==> m[a] < m[b]
    decreases k
  {
    if k == 0 then []
    else MembersBelow(events, anchor, used, k - 1) + (if Joins(events, anchor, used, k - 1) then [k - 1] else [])
  }

  function Members(events: seq<Activity>, anchor: nat, used: set<nat>): seq<nat>
    requires anchor < |events|
  {
    MembersBelow(events, anchor, used, |events|)
  }

  /** The state of the scan: the groups found so far, as index lists whose
      first element is the anchor, and the indices already taken. */
  datatype Scan = Scan(groups: seq<seq<nat>>, used: set<nat>)

  predicate ValidGroups(n: nat, groups: seq<seq<nat>>) {
    forall k :: 0 <= k < |groups| ==> |groups[k]| >= 1 && forall j :: 0 <= j < |groups[k]| ==> groups[k][j] < n
  }

  /** One step of the scan at index i: a taken index is skipped, another event
      is a group of its own, and an untaken push gathers its members. */
  function Visit(events: seq<Activity>, i: nat, s: Scan): Scan
    requires i < |events|
  {
    if i in s.used then s
    else if events[i].kind != PushEvent then Scan(s.groups + [[i]], s.used)
    else
      var m := Members(events, i, s.used);
      Scan(s.groups + [[i] + m], s.used + {i} + set j | j in m)
  }

  /** The scan after the first i events. */
  function ScanTo(events: seq<Activity>, i: nat): (s: Scan)
    requires i <= |events|
    ensures ValidGroups(|events|, s.groups)
    ensures forall j :: j in s.used ==> j < |events|
    decreases i
  {
    if i == 0 then Scan([], {})
    else Visit(events, i - 1, ScanTo(events, i - 1))
  }

  function Groups(events: seq<Activity>): seq<seq<nat>> {
    ScanTo(events, |events|).groups
  }

  function Pick(events: seq<Activity>, g: seq<nat>): (r: seq<Activity>)
    requires forall j :: 0 <= j < |g| ==> g[j] < |events|
    ensures |r| == |g| && forall j :: 0 <= j < |g| ==> r[j] == events[g[j]]
  {
    seq(|g|, j requires 0 <= j < |g| => events[g[j]])
  }

  /** The record a group becomes: a single event as it is, more as their merge. */
  function Emit(events: seq<Activity>, g: seq<nat>): Activity
    requires |g| >= 1 && forall j :: 0 <= j < |g| ==> g[j] < |events|
  {
    if |g| == 1 then events[g[0]] else Merged(Pick(events, g))
  }

  function Render(events: seq<Activity>, groups: seq<seq<nat>>): (r: seq<Activity>)
    requires ValidGroups(|events|, groups)
    ensures |r| == |groups| && forall k :: 0 <= k < |groups| ==> r[k] == Emit(events, groups[k])
  {
    seq(|groups|, k requires 0 <= k < |groups| => Emit(events, groups[k]))
  }

  /** What groupSimilarEvents returns. */
  function Grouped(events: seq<Activity>): seq<Activity> {
    Render(events, Groups(events))
  }

  /** Rendering one more group appends that group's record. */
  lemma RenderAppend(events: seq<Activity>, groups: seq<seq<nat>>, g: seq<nat>)
    requires ValidGroups(|events|, groups) && ValidGroups(|events|, groups + [g])
    requires |g| >= 1 && forall j :: 0 <= j < |g| ==> g[j] < |events|
    ensures Render(events, groups + [g]) == Render(events, groups) + [Emit(events, g)]
  {
    assert (groups + [g])[|groups|] == g;
    assert forall k :: 0 <= k < |groups| ==> (groups + [g])[k] == groups[k];
  }

  // ---------------------------------------------------------------------------
  // Grouping: the method

  /** groupSimilarEvents: a scan with a set of taken indices; every untaken push
      takes all untaken pushes to its repository within the window. */
  method GroupSimilarEvents(events: seq<Activity>) returns (grouped: seq<Activity>)
    ensures grouped == Grouped(events)
  {
    grouped := [];
    var used: set<nat> := {};
    ghost var groups: seq<seq<nat>> := [];
    for index := 0 to |events|
      invariant ScanTo(events, index) == Scan(groups, used)
      invariant grouped == Render(events, groups)
    {
      assert ScanTo(events, index + 1) == Visit(events, index, Scan(groups, used));
      if index in used {
        continue;
      }
      if events[index].kind != PushEvent {
        RenderAppend(events, groups, [index]);
        grouped := grouped + [events[index]];
        groups := groups + [[index]];
        continue;
      }
      var similarEvents;
      ghost var members;
      ghost var before := used;
      similarEvents, used, members := CollectSimilar(events, index, used);
      assert Visit(events, index, Scan(groups, before)) == Scan(groups + [[index] + members], used);
      RenderAppend(events, groups, [index] + members);
      if |similarEvents| > 1 {
        var merged := MergePushEvents(similarEvents);
        grouped := grouped + [merged];
      } else {
        grouped := grouped + [events[index]];
      }
      groups := groups + [[index] + members];
    }
  }

  /** The inner loop of groupSimilarEvents: the push at `index` and, in order,
      every untaken push that joins it; all of them become taken. */
  method CollectSimilar(events: seq<Activity>, index: nat, used: set<nat>)
    returns (similarEvents: seq<Activity>, taken: set<nat>, ghost members: seq<nat>)
    requires index < |events| && index !in used
    ensures members == Members(events, index, used)
    ensures taken == used + {index} + set j | j in Members(events, index, used)
    ensures similarEvents == Pick(events, [index] + Members(events, index, used))
  {
    similarEvents := [events[index]];
    members := [];
    taken := used + {index};
    for checkIndex := 0 to |events|
      invariant members == MembersBelow(events, index, used, checkIndex)
      invariant forall j :: j in taken <==> j in used || j == index || j in members
      invariant similarEvents == [events[index]] + Pick(events, members)
    {
      CollectStep(events, index, used, members, taken, checkIndex);
      if checkIndex == index || checkIndex in taken {
        continue;
      }
      if events[checkIndex].kind != PushEvent {
        continue;
      }
      if events[checkIndex].repo == events[index].repo && Abs(events[index].at - events[checkIndex].at) <= WindowMinutes {
        PickAppend(events, members, checkIndex);
        similarEvents := similarEvents + [events[checkIndex]];
        taken := taken + {checkIndex};
        members := members + [checkIndex];
      }
    }
    PickCons(events, index, members);
    assert taken == used + {index} + set j | j in members;
  }

  /** One step of the inner loop: the tests it makes on index c decide exactly
      whether c joins the anchor, and c is appended to the members if so. */
  lemma CollectStep(events: seq<Activity>, index: nat, used: set<nat>, members: seq<nat>, taken: set<nat>, c: nat)
    requires index < |events| && c < |events| && index !in used
    requires members == MembersBelow(events, index, used, c)
    requires forall j :: j in taken <==> j in used || j == index || j in members
    ensures MembersBelow(events, index, used, c + 1) == members + (if Joins(events, index, used, c) then [c] else [])
    ensures Joins(events, index, used, c) <==>
      !(c == index || c in taken) && events[c].kind == PushEvent &&
      events[c].repo == events[index].repo && Abs(events[index].at - events[c].at) <= WindowMinutes
  {
    assert c !in members;
    assert Abs(events[index].at - events[c].at) == Abs(events[c].at - events[index].at);
  }

  lemma PickAppend(events: seq<Activity>, g: seq<nat>, c: nat)
    requires c < |events| && forall j :: 0 <= j < |g| ==> g[j] < |events|
    ensures Pick(events, g + [c]) == Pick(events, g) + [events[c]]
  {
  }

  lemma PickCons(events: seq<Activity>, c: nat, g: seq<nat>)
    requires c < |events| && forall j :: 0 <= j < |g| ==> g[j] < |events|
    ensures Pick(events, [c] + g) == [events[c]] + Pick(events, g)
  {
  }

  // ---------------------------------------------------------------------------
  // The period filter, month buckets and the type maps

  /** The clock reading the widget uses: the current year and `now()->format('Y-m')`. */
  datatype Clock = Clock(year: int, yearMonth: string)

  /** The prefix a visible event's time must start with: the current "Y-m" when
      the selected year is this year, otherwise the selected year. */
  function PeriodPrefix(selectedYear: int, now: Clock): string {
    if selectedYear == now.year then now.yearMonth else IntToString(selectedYear)
  }

  /** `array_filter` with `str_starts_with(created_at, prefix)`: exactly the
      records whose time starts with the prefix, in order. */
  function InPeriod(events: seq<Activity>, prefix: string): (r: seq<Activity>)
    ensures |r| <= |events|
    ensures forall k :: 0 <= k < |r| ==> StartsWith(r[k].createdAt, prefix)
    ensures forall e :: e in r ==> e in events
    ensures forall k :: 0 <= k < |events| && StartsWith(events[k].createdAt, prefix) ==> events[k] in r
    decreases |events|
  {
    if events == [] then []
    else (if StartsWith(events[0].createdAt, prefix) then [events[0]] else []) + InPeriod(events[1..], prefix)
  }

  /** The period filter works record by record, so it keeps the feed's order. */
  lemma {:induction false} InPeriodAppend(a: seq<Activity>, b: seq<Activity>, prefix: string)
    ensures InPeriod(a + b, prefix) == InPeriod(a, prefix) + InPeriod(b, prefix)
    decreases |a|
  {
    if a == [] {
      assert a + b == b;
    } else {
      var ab := a + b;
      var head := if StartsWith(a[0].createdAt, prefix) then [a[0]] else [];
      assert ab[0] == a[0] && ab[1..] == a[1..] + b;
      InPeriodAppend(a[1..], b, prefix);
      Rebracket(head, InPeriod(a[1..], prefix), InPeriod(b, prefix));
    }
  }

  lemma InPeriodSingle(e: Activity, prefix: string)
    ensures InPeriod([e], prefix) == if StartsWith(e.createdAt, prefix) then [e] else []
  {
    assert [e][1..] == [];
  }

  /** The distinct labels, in order of first appearance. */
  function Distinct(labels: seq<string>): (r: seq<string>)
    ensures forall a, b :: 0 <= a < b < |r| ==> r[a] != r[b]
    ensures forall x :: x in r <==> x in labels
    decreases |labels|
  {
    if labels == [] then []
    else
      var d := Distinct(labels[..|labels| - 1]);
      assert labels == labels[..|labels| - 1] + [labels[|labels| - 1]];
      if labels[|labels| - 1] in d then d else d + [labels[|labels| - 1]]
  }

  function MonthLabels(events: seq<Activity>, monthOf: string -> string): (r: seq<string>)
    ensures |r| == |events| && forall k :: 0 <= k < |events| ==> r[k] == monthOf(events[k].createdAt)
  {
    seq(|events|, k requires 0 <= k < |events| => monthOf(events[k].createdAt))
  }

  /** The records of one month, in order. */
  function InMonth(events: seq<Activity>, monthOf: string -> string, month: string): seq<Activity>
    decreases |events|
  {
    if events == [] then []
    else
      var e := events[|events| - 1];
      InMonth(events[..|events| - 1], monthOf, month) + (if monthOf(e.createdAt) == month then [e] else [])
  }

  /** A month's bucket holds records of that month only, taken from the
      list, and every record of that month. */
  lemma {:induction false} InMonthMembers(events: seq<Activity>, monthOf: string -> string, month: string)
    ensures |InMonth(events, monthOf, month)| <= |events|
    ensures forall e :: e in InMonth(events, monthOf, month) ==> monthOf(e.createdAt) == month && e in events
    ensures forall k :: 0 <= k < |events| && monthOf(events[k].createdAt) == month ==> events[k] in InMonth(events, monthOf, month)
    decreases |events|
  {
    if events != [] {
      var init := events[..|events| - 1];
      InMonthMembers(init, monthOf, month);
      assert events == init + [events[|events| - 1]];
    }
  }

  /** Adding one record to the end adds its label when it is new, and adds the
      record to the end of its own month only. */
  lemma MonthStep(events: seq<Activity>, monthOf: string -> string, i: nat)
    requires i < |events|
    ensures var d := Distinct(MonthLabels(events[..i], monthOf));
      var key := monthOf(events[i].createdAt);
      Distinct(MonthLabels(events[..i + 1], monthOf)) == if key in d then d else d + [key]
    ensures forall month ::
      InMonth(events[..i + 1], monthOf, month) == InMonth(events[..i], monthOf, month) + (if monthOf(events[i].createdAt) == month then [events[i]] else [])
  {
    assert events[..i + 1][..i] == events[..i];
    var labels := MonthLabels(events[..i + 1], monthOf);
    assert labels[..i] == MonthLabels(events[..i], monthOf);
  }

  /** A month no record falls in has no records. */
  lemma {:induction false} NotInMonth(events: seq<Activity>, monthOf: string -> string, month: string)
    requires month !in MonthLabels(events, monthOf)
    ensures InMonth(events, monthOf, month) == []
    decreases |events|
  {
    if events != [] {
      var front := events[..|events| - 1];
      assert MonthLabels(events, monthOf)[|events| - 1] == monthOf(events[|events| - 1].createdAt);
      assert forall k :: 0 <= k < |front| ==> MonthLabels(front, monthOf)[k] == MonthLabels(events, monthOf)[k];
      NotInMonth(front, monthOf, month);
    }
  }

  /** `order` lists the month labels of `prefix` in order of first appearance,
      and `months` maps exactly those labels to their records. */
  ghost predicate Bucketed(prefix: seq<Activity>, monthOf: string -> string, order: seq<string>, months: map<string, seq<Activity>>) {
    order == Distinct(MonthLabels(prefix, monthOf)) &&
    (forall month :: month in months <==> month in order) &&
    (forall month :: month in months ==> months[month] == InMonth(prefix, monthOf, month))
  }

  /** Filing record i under its label keeps the buckets right for one more record. */
  lemma BucketStep(events: seq<Activity>, monthOf: string -> string, i: nat,
                   order: seq<string>, months: map<string, seq<Activity>>)
    requires i < |events| && Bucketed(events[..i], monthOf, order, months)
    ensures var key := monthOf(events[i].createdAt);
      Bucketed(events[..i + 1], monthOf,
        if key in months then order else order + [key],
        months[key := (if key in months then months[key] else []) + [events[i]]])
  {
    var key := monthOf(events[i].createdAt);
    MonthStep(events, monthOf, i);
    if key in months {
      BucketKnown(events, monthOf, i, order, months);
    } else {
      assert key !in MonthLabels(events[..i], monthOf);
      NotInMonth(events[..i], monthOf, key);
      BucketNew(events, monthOf, i, order, months);
    }
  }

  lemma BucketKnown(events: seq<Activity>, monthOf: string -> string, i: nat,
                    order: seq<string>, months: map<string, seq<Activity>>)
    requires i < |events| && Bucketed(events[..i], monthOf, order, months)
    requires monthOf(events[i].createdAt) in months
    requires Distinct(MonthLabels(events[..i + 1], monthOf)) == order
    requires forall month :: (InMonth(events[..i + 1], monthOf, month) ==
      InMonth(events[..i], monthOf, month) + (if monthOf(events[i].createdAt) == month then [events[i]] else []))
    ensures var key := monthOf(events[i].createdAt);
      Bucketed(events[..i + 1], monthOf, order, months[key := months[key] + [events[i]]])
  {
    var key := monthOf(events[i].createdAt);
    var next := months[key := months[key] + [events[i]]];
    forall month | month in next
      ensures next[month] == InMonth(events[..i + 1], monthOf, month)
    {
      assert InMonth(events[..i + 1], monthOf, month) ==
        InMonth(events[..i], monthOf, month) + (if key == month then [events[i]] else []);
    }
  }

  lemma BucketNew(events: seq<Activity>, monthOf: string -> string, i: nat,
                  order: seq<string>, months: map<string, seq<Activity>>)
    requires i < |events| && Bucketed(events[..i], monthOf, order, months)
    requires monthOf(events[i].createdAt) !in months
    requires InMonth(events[..i], monthOf, monthOf(events[i].createdAt)) == []
    requires Distinct(MonthLabels(events[..i + 1], monthOf)) == order + [monthOf(events[i].createdAt)]
    requires forall month :: (InMonth(events[..i + 1], monthOf, month) ==
      InMonth(events[..i], monthOf, month) + (if monthOf(events[i].createdAt) == month then [events[i]] else []))
    ensures var key := monthOf(events[i].createdAt);
      Bucketed(events[..i + 1], monthOf, order + [key], months[key := [events[i]]])
  {
    var key := monthOf(events[i].createdAt);
    var next := months[key := [events[i]]];
    forall month | month in next
      ensures next[month] == InMonth(events[..i + 1], monthOf, month)
    {
      assert InMonth(events[..i + 1], monthOf, month) ==
        InMonth(events[..i], monthOf, month) + (if key == month then [events[i]] else []);
    }
    forall month
      ensures month in next <==> month in order + [key]
    {
    }
  }

  /** getGroupedEvents' loop. PHP's insertion-ordered array is the order in
      which month labels ('F Y' of the record's time) first appear, and a map
      from each label to that month's records, in feed order. */
  method GroupByMonth(events: seq<Activity>, monthOf: string -> string)
    returns (order: seq<string>, months: map<string, seq<Activity>>)
    ensures order == Distinct(MonthLabels(events, monthOf))
    ensures forall month :: month in months <==> month in order
    ensures forall month :: month in months ==> months[month] == InMonth(events, monthOf, month)
  {
    order := [];
    months := map[];
    for i := 0 to |events|
      invariant Bucketed(events[..i], monthOf, order, months)
    {
      var key := monthOf(events[i].createdAt);
      BucketStep(events, monthOf, i, order, months);
      if key in months {
        months := months[key := months[key] + [events[i]]];
      } else {
        months := months[key := [events[i]]];
        order := order + [key];
      }
    }
    assert events[..|events|] == events;
  }

  const DefaultIcon := "heroicon-o-document-text"
  const DefaultColor := "gray"

  /** getActivityIcon: each allow-listed type has its own icon and every other
      type shares the default one. */
  function ActivityIcon(kind: string): (icon: string)
    ensures icon == DefaultIcon <==> !Allowed(kind)
  {
    if kind == PushEvent then "heroicon-o-arrow-up-circle"
    else if kind == CreateEvent then "heroicon-o-plus-circle"
    else if kind == IssuesEvent then "heroicon-o-exclamation-circle"
    else if kind == PullRequestEvent then "heroicon-o-arrow-path"
    else DefaultIcon
  }

  /** getActivityColor: each allow-listed type has its own colour and every
      other type is gray. */
  function ActivityColor(kind: string): (color: string)
    ensures color == DefaultColor <==> !Allowed(kind)
  {
    if kind == PushEvent then "success"
    else if kind == CreateEvent then "info"
    else if kind == IssuesEvent then "warning"
    else if kind == PullRequestEvent then "primary"
    else DefaultColor
  }

  /** No two allow-listed types share an icon or a colour. */
  lemma IconsAndColorsTellTypesApart(a: string, b: string)
    requires Allowed(a) && Allowed(b) && a != b
    ensures ActivityIcon(a) != ActivityIcon(b) && ActivityColor(a) != ActivityColor(b)
  {
  }
}
