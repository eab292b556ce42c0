/** The merge re-reads what the formatter wrote: for a well-formed branch and
    message, the three patterns recover exactly the count, the branch and the
    message, so merging formatted pushes adds their counts and lists their
    messages. */
module MergeProofs {
  import opened Wrappers
  import opened PhpText
  import opened GitHubService
  import opened RecentActivity

  /** A branch the pattern `[^\s:]+` reads whole. */
  predicate PlainBranch(b: string) {
    b != [] && forall i :: 0 <= i < |b| ==> !IsSpace(b[i]) && b[i] != ':'
  }

  /** A message the pattern `(.+)$` reads whole. */
  predicate OneLine(m: string) {
    m != [] && '\n' !in m
  }

  // ---------------------------------------------------------------------------
  // Scanning past text that cannot start a match

  lemma {:induction false} SkipToCount(s: string, p: nat, q: nat)
    requires p <= q <= |s|
    requires forall j :: p <= j < q ==> CountAt(s, j).None?
    ensures FindCount(s, p) == FindCount(s, q)
    decreases q - p
  {
    if p < q {
      SkipToCount(s, p + 1, q);
    }
  }

  lemma {:induction false} SkipToMessage(s: string, p: nat, q: nat)
    requires p <= q <= |s|
    requires forall j :: p <= j < q ==> s[j] != ':'
    ensures FindMessage(s, p) == FindMessage(s, q)
    decreases q - p
  {
    if p < q {
      assert s[p..][0] == s[p];
      SkipToMessage(s, p + 1, q);
    }
  }

  lemma {:induction false} SkipToBranch(s: string, p: nat, q: nat)
    requires p <= q <= |s|
    requires forall j :: p <= j < q ==> !StartsWith(s[j..], "to ")
    ensures FindBranch(s, p) == FindBranch(s, q)
    decreases q - p
  {
    if p < q {
      SkipToBranch(s, p + 1, q);
    }
  }

  // ---------------------------------------------------------------------------
  // `preg_match` reports the leftmost match

  /** The count read is the one matched at the first position where
      `/Pushed (\d+) commits? to/` matches; there is none when no position matches. */
  lemma CountIsLeftmost(s: string, q: nat)
    requires q <= |s| && forall j :: 0 <= j < q ==> CountAt(s, j).None?
    ensures CountAt(s, q).Some? ==> CommitCountOf(s) == CountAt(s, q)
    ensures q == |s| && CountAt(s, q).None? ==> CommitCountOf(s).None?
  {
    SkipToCount(s, 0, q);
  }

  /** A text from which no count is read matches the pattern nowhere. */
  lemma {:induction false} NoCountAnywhere(s: string, p: nat)
    requires p <= |s| && FindCount(s, p).None?
    ensures forall q :: p <= q <= |s| ==> CountAt(s, q).None?
    decreases |s| - p
  {
    if p < |s| {
      NoCountAnywhere(s, p + 1);
    }
  }

  lemma {:induction false} SkipMessages(s: string, p: nat, q: nat)
    requires p <= q <= |s|
    requires forall j :: p <= j < q ==> MessageAt(s, j).None?
    ensures FindMessage(s, p) == FindMessage(s, q)
    decreases q - p
  {
    if p < q {
      SkipMessages(s, p + 1, q);
    }
  }

  /** The message read is the one matched at the first position where
      `/: (.+)$/` matches; there is none when no position matches. */
  lemma MessageIsLeftmost(s: string, q: nat)
    requires q <= |s| && forall j :: 0 <= j < q ==> MessageAt(s, j).None?
    ensures MessageAt(s, q).Some? ==> MessageOf(s) == MessageAt(s, q)
    ensures q == |s| && MessageAt(s, q).None? ==> MessageOf(s).None?
  {
    SkipMessages(s, 0, q);
  }

  lemma {:induction false} NoMessageAnywhere(s: string, p: nat)
    requires p <= |s| && FindMessage(s, p).None?
    ensures forall q :: p <= q <= |s| ==> MessageAt(s, q).None?
    decreases |s| - p
  {
    if p < |s| {
      NoMessageAnywhere(s, p + 1);
    }
  }

  lemma {:induction false} SkipBranches(s: string, p: nat, q: nat)
    requires p <= q <= |s|
    requires forall j :: p <= j < q ==> BranchAt(s, j).None?
    ensures FindBranch(s, p) == FindBranch(s, q)
    decreases q - p
  {
    if p < q {
      SkipBranches(s, p + 1, q);
    }
  }

  /** The branch read is the one matched at the first position where
      `/to ([^\s:]+)/` matches; there is none when no position matches. */
  lemma BranchIsLeftmost(s: string, q: nat)
    requires q <= |s| && forall j :: 0 <= j < q ==> BranchAt(s, j).None?
    ensures BranchAt(s, q).Some? ==> BranchNameOf(s) == BranchAt(s, q)
    ensures q == |s| && BranchAt(s, q).None? ==> BranchNameOf(s).None?
  {
    SkipBranches(s, 0, q);
  }

  lemma {:induction false} NoBranchAnywhere(s: string, p: nat)
    requires p <= |s| && FindBranch(s, p).None?
    ensures forall q :: p <= q <= |s| ==> BranchAt(s, q).None?
    decreases |s| - p
  {
    if p < |s| {
      NoBranchAnywhere(s, p + 1);
    }
  }

  // ---------------------------------------------------------------------------
  // The runs the patterns take

  lemma {:induction false} DigitRunOf(d: string, rest: string)
    requires AllDigits(d) && (rest == [] || !IsDigit(rest[0]))
    ensures DigitRun(d + rest) == |d|
    decreases |d|
  {
    if d != [] {
      assert (d + rest)[1..] == d[1..] + rest;
      DigitRunOf(d[1..], rest);
    } else {
      assert d + rest == rest;
    }
  }

  lemma {:induction false} BranchRunOf(b: string, rest: string)
    requires forall i :: 0 <= i < |b| ==> !IsSpace(b[i]) && b[i] != ':'
    requires rest == [] || IsSpace(rest[0]) || rest[0] == ':'
    ensures BranchRun(b + rest) == |b|
    decreases |b|
  {
    if b != [] {
      assert (b + rest)[1..] == b[1..] + rest;
      BranchRunOf(b[1..], rest);
    } else {
      assert b + rest == rest;
    }
  }

  // ---------------------------------------------------------------------------
  // Where "to " cannot start

  /** Every 't' in s is followed, inside s, by something other than 'o'. */
  predicate NoToStart(s: string) {
    forall j :: 0 <= j < |s| && s[j] == 't' ==> j + 1 < |s| && s[j + 1] != 'o'
  }

  lemma NoToStartConcat(a: string, b: string)
    requires NoToStart(a) && NoToStart(b)
    ensures NoToStart(a + b)
  {
    forall j | 0 <= j < |a + b| && (a + b)[j] == 't'
      ensures j + 1 < |a + b| && (a + b)[j + 1] != 'o'
    {
      if j < |a| {
        assert a[j] == 't';
      } else {
        assert b[j - |a|] == 't';
      }
    }
  }

  lemma DigitsNoToStart(d: string)
    requires AllDigits(d)
    ensures NoToStart(d)
  {
  }

  /** The words before "to " in a push summary: "Pushed 1 commit " or "Pushed {n} commits ". */
  function Lead(n: nat): string {
    "Pushed " + CountPhrase(n) + " "
  }

  lemma LeadNoToStart(n: nat)
    ensures NoToStart(Lead(n))
  {
    var a: string := "Pushed ";
    assert NoToStart(a) by {
      assert forall j :: 0 <= j < |a| ==> a[j] != 't';
    }
    if n == 1 {
      var c: string := "1 commit ";
      assert NoToStart(c) by {
        assert forall j :: 0 <= j < |c| && c[j] == 't' ==> j == 7;
      }
      NoToStartConcat(a, c);
      assert Lead(n) == a + c;
    } else {
      var d := NatToString(n);
      var c: string := " commits ";
      assert NoToStart(c) by {
        assert forall j :: 0 <= j < |c| && c[j] == 't' ==> j == 6;
      }
      DigitsNoToStart(d);
      NoToStartConcat(a, d);
      NoToStartConcat(a + d, c);
      assert Lead(n) == a + d + c;
    }
  }

  lemma StartsWithTo(x: string)
    ensures StartsWith(x, "to ") <==> |x| >= 3 && x[0] == 't' && x[1] == 'o' && x[2] == ' '
  {
    if |x| >= 3 && x[0] == 't' && x[1] == 'o' && x[2] == ' ' {
      assert x[..3] == "to ";
    }
  }

  lemma NoToStartPrefix(p: string, rest: string, j: nat)
    requires NoToStart(p) && j < |p| && rest != [] && rest[0] == 't'
    ensures !StartsWith((p + rest)[j..], "to ")
  {
    var s := p + rest;
    StartsWithTo(s[j..]);
    assert s[j] == p[j];
    if p[j] == 't' {
      assert s[j + 1] == p[j + 1];
    }
  }

  // ---------------------------------------------------------------------------
  // Reading back the formatter's push summary

  lemma SummaryShape(n: nat, b: string, tail: string)
    ensures PushSummary(n, b, tail) == Lead(n) + ("to " + b + tail)
    ensures PushSummary(n, b, tail) == "Pushed " + (CountPhrase(n) + " to " + b + tail)
  {
    Regroup(CountPhrase(n), b, tail);
  }

  lemma Regroup(c: string, b: string, tail: string)
    ensures "Pushed " + c + " to " + b + tail == ("Pushed " + c + " ") + ("to " + b + tail)
    ensures "Pushed " + c + " to " + b + tail == "Pushed " + (c + " to " + b + tail)
  {
    assert " to " == [' '] + "to ";
  }

  /** The count pattern at the start of "Pushed {digits} commit(s) to ...". */
  lemma CountAtDigits(s: string, d: string, after: string)
    requires s == "Pushed " + d + after && d != [] && AllDigits(d)
    requires StartsWith(after, " commits to") || StartsWith(after, " commit to")
    ensures CountAt(s, 0) == Some(DigitsValue(d))
  {
    assert s[..7] == "Pushed ";
    assert s[7..] == d + after;
    DigitRunOf(d, after);
    assert s[7..7 + |d|] == d;
    assert s[7 + |d|..] == after;
  }

  /** The count pattern reads back the count the summary prints. */
  lemma CountOfSummary(n: nat, b: string, tail: string)
    requires n >= 1
    ensures CommitCountOf(PushSummary(n, b, tail)) == Some(n)
  {
    if n == 1 {
      CountOfOne(b, tail);
    } else {
      CountOfMany(n, b, tail);
    }
  }

  lemma CountOfOne(b: string, tail: string)
    ensures CommitCountOf(PushSummary(1, b, tail)) == Some(1)
  {
    var s := PushSummary(1, b, tail);
    var after := " commit to " + b + tail;
    assert "Pushed " + "1 commit" + " to " == "Pushed " + "1" + " commit to ";
    assert s == "Pushed " + "1" + after;
    assert after[..10] == " commit to";
    assert DigitsValue("1") == 1;
    CountAtDigits(s, "1", after);
  }

  lemma CountOfMany(n: nat, b: string, tail: string)
    requires n >= 2
    ensures CommitCountOf(PushSummary(n, b, tail)) == Some(n)
  {
    var d := NatToString(n);
    var w: string := " commits";
    var t: string := " to ";
    MoveCount("Pushed ", d, w, t, b, tail);
    var after := w + t + b + tail;
    ManyWording(after);
    NatToStringRoundTrip(n);
    CountAtDigits(PushSummary(n, b, tail), d, after);
  }

  /** Re-bracketing "Pushed " + ({d} + " commits") + " to " + ... around the digits. */
  lemma MoveCount(p: string, d: string, w: string, t: string, b: string, tail: string)
    ensures p + (d + w) + t + b + tail == p + d + (w + t + b + tail)
  {
  }

  lemma ManyWording(after: string)
    requires StartsWith(after, " commits" + " to ")
    ensures StartsWith(after, " commits to")
  {
    assert " commits" + " to " == " commits to" + " ";
  }

  /** The branch pattern reads back a plain branch. */
  lemma BranchOfSummary(n: nat, b: string, tail: string)
    requires PlainBranch(b) && (tail == [] || IsSpace(tail[0]) || tail[0] == ':')
    ensures BranchNameOf(PushSummary(n, b, tail)) == Some(b)
  {
    var s := PushSummary(n, b, tail);
    var lead := Lead(n);
    var rest := "to " + b + tail;
    SummaryShape(n, b, tail);
    LeadNoToStart(n);
    forall j | 0 <= j < |lead|
      ensures !StartsWith(s[j..], "to ")
    {
      NoToStartPrefix(lead, rest, j);
    }
    SkipToBranch(s, 0, |lead|);
    BranchAtPlain(s, |lead|, b, tail);
  }

  /** The branch pattern at a "to " followed by a plain branch. */
  lemma BranchAtPlain(s: string, p: nat, b: string, tail: string)
    requires p <= |s| && s[p..] == "to " + b + tail
    requires PlainBranch(b) && (tail == [] || IsSpace(tail[0]) || tail[0] == ':')
    ensures BranchAt(s, p) == Some(b)
  {
    var x := s[p..];
    assert x[..3] == "to ";
    assert x[3..] == b + tail;
    BranchRunOf(b, tail);
    assert s[p + 3..p + 3 + |b|] == x[3..3 + |b|] == b;
  }

  lemma DigitsNoColon(d: string)
    requires AllDigits(d)
    ensures ':' !in d
  {
  }

  /** The words before ": " in a summary with a plain branch carry no ':'. */
  lemma HeadNoColon(n: nat, b: string)
    requires PlainBranch(b)
    ensures ':' !in "Pushed " + CountPhrase(n) + " to " + b
  {
    DigitsNoColon(NatToString(n));
    assert ':' !in b;
  }

  /** The message pattern reads back a one-line message after a plain branch. */
  lemma MessageOfSummary(n: nat, b: string, m: string)
    requires PlainBranch(b) && OneLine(m)
    ensures MessageOf(PushSummary(n, b, ": " + m)) == Some(m)
  {
    var head := "Pushed " + CountPhrase(n) + " to " + b;
    var s := PushSummary(n, b, ": " + m);
    assert s == head + (": " + m);
    HeadNoColon(n, b);
    forall j | 0 <= j < |head|
      ensures s[j] != ':'
    {
      assert s[j] == head[j];
    }
    SkipToMessage(s, 0, |head|);
    assert s[|head|..] == ": " + m;
    MessageAtLine(s, |head|, m);
  }

  /** The message pattern at a ": " followed by a one-line message that ends the text. */
  lemma MessageAtLine(s: string, p: nat, m: string)
    requires p <= |s| && s[p..] == ": " + m && OneLine(m)
    ensures MessageAt(s, p) == Some(m)
  {
    var x := s[p..];
    assert x[..2] == ": ";
    assert s[p + 2..] == x[2..] == m;
    assert forall i :: 0 <= i < |m| ==> m[i] != '\n';
    assert LineEnd(m) == |m|;
    assert m[..|m|] == m;
  }

  /** Print then parse: a summary with count n >= 1, a plain branch and a
      one-line message gives back exactly n, the branch and the message. */
  lemma SummaryRoundTrip(n: nat, b: string, m: string)
    requires n >= 1 && PlainBranch(b) && OneLine(m)
    ensures var s := PushSummary(n, b, ": " + m);
      CommitCountOf(s) == Some(n) && BranchNameOf(s) == Some(b) && MessageOf(s) == Some(m)
  {
    CountOfSummary(n, b, ": " + m);
    BranchOfSummary(n, b, ": " + m);
    MessageOfSummary(n, b, m);
  }

  /** What formatEventPayload writes for a push with a comparison and a
      commit list is read back by the merge: its count, its branch and the
      first commit's headline. */
  lemma FormattedPushRoundTrip(e: RawEvent, api: CompareApi, c: Comparison)
    requires e.kind == PushEvent
    requires TruthyValue(e.payload.before) && TruthyValue(e.payload.head) && e.repoName.Some?
    requires GetCommitComparison(api, e.repoName.value, e.payload.before.value, e.payload.head.value) == Some(c)
    requires c.totalCommits > 0 && |c.commits| > 0
    requires PlainBranch(BranchOf(e.payload.gitRef)) && Headline(c.commits[0].message) != []
    ensures var text := FormatEventPayload(e, api);
      CommitCountOf(text) == Some(c.totalCommits) &&
      BranchNameOf(text) == Some(BranchOf(e.payload.gitRef)) &&
      MessageOf(text) == Some(Headline(c.commits[0].message))
  {
    PushWithMessage(e, api, c);
    SummaryRoundTrip(c.totalCommits, BranchOf(e.payload.gitRef), Headline(c.commits[0].message));
  }

  lemma StartsWithPushed(x: string)
    ensures StartsWith(x, "Pushed ") ==> |x| >= 7 && x[0] == 'P' && x[6] == ' '
  {
    if StartsWith(x, "Pushed ") {
      assert x[..7] == "Pushed ";
    }
  }

  /** The fallback texts carry no count, so a push whose comparison failed adds
      neither commits nor a message to a merge (git branch names have no spaces). */
  lemma FallbackHasNoCount(b: string)
    requires ' ' !in b
    ensures CommitCountOf("Pushed to " + b) == None
    ensures CommitCountOf("Pushed commits") == None
  {
    PushedToHasNoCount(b);
    PushedCommitsHasNoCount();
  }

  lemma PushedToHasNoCount(b: string)
    requires ' ' !in b
    ensures CommitCountOf("Pushed to " + b) == None
  {
    var lead: string := "Pushed to ";
    var s := lead + b;
    assert s[7..] == "to " + b;
    assert DigitRun(s[7..]) == 0;
    forall j | 0 < j <= |s|
      ensures CountAt(s, j).None?
    {
      NoCountAfterStart(lead, b, j);
    }
    SkipToCount(s, 1, |s|);
  }

  /** Past its first character, "Pushed to {b}" never again starts with "Pushed ". */
  lemma NoCountAfterStart(lead: string, b: string, j: nat)
    requires lead == "Pushed to " && ' ' !in b && 0 < j <= |lead + b|
    ensures CountAt(lead + b, j).None?
  {
    var s := lead + b;
    StartsWithPushed(s[j..]);
    if j < 10 {
      assert s[j] == lead[j];
      assert forall i :: 1 <= i < |lead| ==> lead[i] != 'P';
    } else if j + 6 < |s| {
      assert s[j + 6] == b[j - 4];
    }
  }

  lemma PushedCommitsHasNoCount()
    ensures CommitCountOf("Pushed commits") == None
  {
    var t: string := "Pushed commits";
    assert t[7..] == "commits";
    assert DigitRun(t[7..]) == 0;
    forall j | 0 < j <= |t|
      ensures CountAt(t, j).None?
    {
      StartsWithPushed(t[j..]);
      assert forall i :: 1 <= i < |t| ==> t[i] != 'P';
    }
    SkipToCount(t, 1, |t|);
  }

  // ---------------------------------------------------------------------------
  // Merging formatted pushes

  function Sum(xs: seq<nat>): nat
    decreases |xs|
  {
    if xs == [] then 0 else Sum(xs[..|xs| - 1]) + xs[|xs| - 1]
  }

  /** A group whose k-th text is the summary of counts[k], branches[k] and messages[k]. */
  predicate Summaries(group: seq<Activity>, counts: seq<nat>, branches: seq<string>, messages: seq<string>) {
    |group| == |counts| == |branches| == |messages| &&
    forall k :: 0 <= k < |group| ==>
      counts[k] >= 1 && PlainBranch(branches[k]) && OneLine(messages[k]) &&
      group[k].payload == PushSummary(counts[k], branches[k], ": " + messages[k])
  }

  /** A group whose k-th text reads as count counts[k] and message messages[k]. */
  predicate Parses(group: seq<Activity>, counts: seq<nat>, messages: seq<string>) {
    |group| == |counts| == |messages| &&
    forall k :: 0 <= k < |group| ==>
      CommitCountOf(group[k].payload) == Some(counts[k]) && MessageOf(group[k].payload) == Some(messages[k])
  }

  lemma SummariesParse(group: seq<Activity>, counts: seq<nat>, branches: seq<string>, messages: seq<string>)
    requires Summaries(group, counts, branches, messages)
    ensures Parses(group, counts, messages)
  {
    forall k | 0 <= k < |group|
      ensures CommitCountOf(group[k].payload) == Some(counts[k]) && MessageOf(group[k].payload) == Some(messages[k])
    {
      SummaryRoundTrip(counts[k], branches[k], messages[k]);
    }
  }

  /** When every text reads, the merge's total is the sum of the counts and its
      messages are the members' messages, in group order. */
  lemma {:induction false} MergeOfParsed(group: seq<Activity>, counts: seq<nat>, messages: seq<string>)
    requires Parses(group, counts, messages)
    ensures TotalCommits(group) == Sum(counts)
    ensures Messages(group) == messages
    decreases |group|
  {
    if group != [] {
      var n := |group| - 1;
      assert Parses(group[..n], counts[..n], messages[..n]);
      MergeOfParsed(group[..n], counts[..n], messages[..n]);
      assert messages == messages[..n] + [messages[n]];
    }
  }

  /** The merged text of formatted summaries: the total on the first branch,
      the first message and how many more there are. */
  lemma MergedSummaries(group: seq<Activity>, counts: seq<nat>, branches: seq<string>, messages: seq<string>)
    requires group != [] && Summaries(group, counts, branches, messages)
    ensures Merged(group).payload == PushSummary(Sum(counts), branches[0], Preview(messages))
    ensures Merged(group).allMessages == if |messages| > 1 then Some(messages) else group[0].allMessages
  {
    SummariesParse(group, counts, branches, messages);
    MergeOfParsed(group, counts, messages);
    BranchOfSummary(counts[0], branches[0], ": " + messages[0]);
    SumAtLeastFirst(counts);
  }

  lemma {:induction false} SumAtLeastFirst(xs: seq<nat>)
    requires xs != []
    ensures Sum(xs) >= xs[0]
    decreases |xs|
  {
    if |xs| > 1 {
      SumAtLeastFirst(xs[..|xs| - 1]);
    }
  }

  /** Texts without a count add nothing: no commits and no messages. */
  lemma {:induction false} UncountedAddNothing(group: seq<Activity>)
    requires forall k :: 0 <= k < |group| ==> CommitCountOf(group[k].payload).None?
    ensures TotalCommits(group) == 0 && Messages(group) == []
    decreases |group|
  {
    if group != [] {
      UncountedAddNothing(group[..|group| - 1]);
    }
  }

  /** A group of fallback texts ("Pushed to {b}" or "Pushed commits") keeps its
      first push as it is. */
  lemma FallbacksKeepAnchor(group: seq<Activity>)
    requires group != []
    requires forall k :: 0 <= k < |group| ==> exists b :: ' ' !in b && group[k].payload in {"Pushed to " + b, "Pushed commits"}
    ensures Merged(group) == group[0]
  {
    forall k | 0 <= k < |group|
      ensures CommitCountOf(group[k].payload).None?
    {
      var b :| ' ' !in b && group[k].payload in {"Pushed to " + b, "Pushed commits"};
      FallbackHasNoCount(b);
    }
    UncountedAddNothing(group);
  }

  /** Two pushes to main, of 3 and 2 commits with messages "fix a" and "fix b",
      merge into one summary of 5 commits to main showing "fix a" and "(+ 1 more)". */
  lemma TwoPushesExample(first: Activity, second: Activity)
    requires first.payload == PushSummary(3, "main", ": fix a")
    requires second.payload == PushSummary(2, "main", ": fix b")
    ensures Merged([first, second]).payload == PushSummary(5, "main", ": fix a (+ 1 more)")
    ensures Merged([first, second]).allMessages == Some(["fix a", "fix b"])
  {
    ExampleSummaries(first, second);
    MergedSummaries([first, second], [3, 2], ["main", "main"], ["fix a", "fix b"]);
    assert Sum([3, 2]) == 5;
    ExamplePreview();
  }

  lemma ExampleSummaries(first: Activity, second: Activity)
    requires first.payload == PushSummary(3, "main", ": fix a")
    requires second.payload == PushSummary(2, "main", ": fix b")
    ensures Summaries([first, second], [3, 2], ["main", "main"], ["fix a", "fix b"])
  {
    assert PlainBranch("main") && OneLine("fix a") && OneLine("fix b");
  }

  lemma ExamplePreview()
    ensures Preview(["fix a", "fix b"]) == ": fix a (+ 1 more)"
  {
    assert NatToString(1) == "1";
  }
}
