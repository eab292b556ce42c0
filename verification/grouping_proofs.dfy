/** What the push-burst grouping guarantees: it partitions the feed, keeps the
    other events in order, gathers only pushes near their group's first push,
    and leaves no two groupable pushes behind, so grouping twice is grouping once. */
module GroupingProofs {
  import opened Wrappers
  import opened PhpText
  import opened GitHubService
  import opened RecentActivity

  /** The indices of all groups, group after group. */
  function Flatten(groups: seq<seq<nat>>): seq<nat>
    decreases |groups|
  {
    if groups == [] then [] else Flatten(groups[..|groups| - 1]) + groups[|groups| - 1]
  }

  predicate NoDup(xs: seq<nat>) {
    forall a, b :: 0 <= a < b < |xs| ==> xs[a] != xs[b]
  }

  /** Event k may join the group of push `anchor`, whatever has been taken. */
  predicate Member(events: seq<Activity>, anchor: nat, k: nat)
    requires anchor < |events| && k < |events|
  {
    events[anchor].kind == PushEvent && k != anchor && events[k].kind == PushEvent &&
    events[k].repo == events[anchor].repo && Abs(events[k].at - events[anchor].at) <= WindowMinutes
  }

  // ---------------------------------------------------------------------------
  // The facts the scan keeps

  /** Groups are index lists with increasing anchors below i, at most one per
      index visited; only pushes are ever taken. */
  predicate Shape(events: seq<Activity>, i: nat, s: Scan) {
    ValidGroups(|events|, s.groups) && |s.groups| <= i &&
    (forall a :: 0 <= a < |s.groups| ==> s.groups[a][0] < i) &&
    (forall a, b :: 0 <= a < b < |s.groups| ==> s.groups[a][0] < s.groups[b][0]) &&
    (forall k :: k in s.used ==> k < |events| && events[k].kind == PushEvent)
  }

  /** No index is in two places, and the indices placed are the taken pushes
      and the other events already visited; every push visited is taken. */
  ghost predicate Cover(events: seq<Activity>, i: nat, s: Scan)
    requires i <= |events|
  {
    NoDup(Flatten(s.groups)) &&
    (forall k: nat :: k in Flatten(s.groups) <==> k in s.used || (k < i && events[k].kind != PushEvent)) &&
    (forall k :: 0 <= k < i && events[k].kind == PushEvent ==> k in s.used)
  }

  /** Every member after the anchor is a push the anchor may gather. */
  predicate Window(events: seq<Activity>, s: Scan)
    requires ValidGroups(|events|, s.groups)
  {
    forall a, j :: 0 <= a < |s.groups| && 1 <= j < |s.groups[a]| ==> Member(events, s.groups[a][0], s.groups[a][j])
  }

  /** No untaken event may join an existing group, and no later anchor could
      have joined an earlier group. */
  predicate Far(events: seq<Activity>, s: Scan)
    requires ValidGroups(|events|, s.groups)
  {
    (forall a, k :: 0 <= a < |s.groups| && 0 <= k < |events| && k !in s.used ==> !Member(events, s.groups[a][0], k)) &&
    (forall a, b :: 0 <= a < b < |s.groups| ==> !Member(events, s.groups[a][0], s.groups[b][0]))
  }

  lemma FlattenAppend(groups: seq<seq<nat>>, g: seq<nat>)
    ensures Flatten(groups + [g]) == Flatten(groups) + g
  {
    assert (groups + [g])[..|groups|] == groups;
  }

  lemma NoDupAppend(xs: seq<nat>, ys: seq<nat>)
    requires NoDup(xs) && NoDup(ys) && forall y :: y in ys ==> y !in xs
    ensures NoDup(xs + ys)
  {
    forall a, b | 0 <= a < b < |xs + ys|
      ensures (xs + ys)[a] != (xs + ys)[b]
    {
      if b >= |xs| && a < |xs| {
        assert (xs + ys)[b] in ys;
      }
    }
  }

  /** The members a push gathers are the indices that may join it and are not taken. */
  lemma MembersJoin(events: seq<Activity>, i: nat, used: set<nat>)
    requires i < |events| && events[i].kind == PushEvent
    ensures var m := Members(events, i, used);
      NoDup([i] + m) &&
      (forall k :: k in m ==> k < |events| && k !in used && Member(events, i, k)) &&
      (forall k :: 0 <= k < |events| && k !in used && Member(events, i, k) ==> k in m)
  {
    var m := Members(events, i, used);
    forall k | k in m
      ensures k < |events| && k !in used && Member(events, i, k)
    {
      var j :| 0 <= j < |m| && m[j] == k;
    }
    forall a, b | 0 <= a < b < |[i] + m|
      ensures ([i] + m)[a] != ([i] + m)[b]
    {
      if a == 0 {
        assert ([i] + m)[b] == m[b - 1];
      } else {
        assert ([i] + m)[a] == m[a - 1] && ([i] + m)[b] == m[b - 1];
      }
    }
  }

  lemma VisitShape(events: seq<Activity>, i: nat, s: Scan)
    requires i < |events| && Shape(events, i, s)
    ensures Shape(events, i + 1, Visit(events, i, s))
  {
    if i !in s.used && events[i].kind == PushEvent {
      MembersJoin(events, i, s.used);
    }
  }

  lemma VisitCover(events: seq<Activity>, i: nat, s: Scan)
    requires i < |events| && Shape(events, i, s) && Cover(events, i, s)
    ensures Cover(events, i + 1, Visit(events, i, s))
  {
    if i !in s.used {
      if events[i].kind != PushEvent {
        VisitCoverOther(events, i, s);
      } else {
        VisitCoverPush(events, i, s);
      }
    }
  }

  /** An event other than a push becomes a group of its own. */
  lemma VisitCoverOther(events: seq<Activity>, i: nat, s: Scan)
    requires i < |events| && Shape(events, i, s) && Cover(events, i, s)
    requires i !in s.used && events[i].kind != PushEvent
    ensures Cover(events, i + 1, Visit(events, i, s))
  {
    var t := Visit(events, i, s);
    assert t.groups == s.groups + [[i]] && t.used == s.used;
    FlattenAppend(s.groups, [i]);
    assert i !in Flatten(s.groups);
    NoDupAppend(Flatten(s.groups), [i]);
  }

  /** An untaken push becomes a group with its members, all of them taken. */
  lemma VisitCoverPush(events: seq<Activity>, i: nat, s: Scan)
    requires i < |events| && Shape(events, i, s) && Cover(events, i, s)
    requires i !in s.used && events[i].kind == PushEvent
    ensures Cover(events, i + 1, Visit(events, i, s))
  {
    var m := Members(events, i, s.used);
    var g := [i] + m;
    var t := Visit(events, i, s);
    assert t.groups == s.groups + [g];
    assert t.used == s.used + {i} + set j | j in m;
    FlattenAppend(s.groups, g);
    MembersJoin(events, i, s.used);
    forall y | y in g
      ensures y !in Flatten(s.groups)
    {
      if y != i {
        assert y in m && y !in s.used && events[y].kind == PushEvent;
      }
    }
    NoDupAppend(Flatten(s.groups), g);
    forall k: nat
      ensures k in Flatten(t.groups) <==> k in t.used || (k < i + 1 && events[k].kind != PushEvent)
    {
      assert k in g <==> k == i || k in m;
    }
  }

  lemma VisitWindow(events: seq<Activity>, i: nat, s: Scan)
    requires i < |events| && Shape(events, i, s) && Window(events, s)
    ensures ValidGroups(|events|, Visit(events, i, s).groups) && Window(events, Visit(events, i, s))
  {
    VisitShape(events, i, s);
    var t := Visit(events, i, s);
    if i !in s.used && events[i].kind == PushEvent {
      var m := Members(events, i, s.used);
      MembersJoin(events, i, s.used);
      forall a, j | 0 <= a < |t.groups| && 1 <= j < |t.groups[a]|
        ensures Member(events, t.groups[a][0], t.groups[a][j])
      {
        if a == |s.groups| {
          assert t.groups[a] == [i] + m;
          assert t.groups[a][j] == m[j - 1];
        } else {
          assert t.groups[a] == s.groups[a];
        }
      }
    }
  }

  lemma VisitFar(events: seq<Activity>, i: nat, s: Scan)
    requires i < |events| && Shape(events, i, s) && Far(events, s)
    ensures ValidGroups(|events|, Visit(events, i, s).groups) && Far(events, Visit(events, i, s))
  {
    VisitShape(events, i, s);
    var t := Visit(events, i, s);
    if i !in s.used {
      var g := if events[i].kind != PushEvent then [i] else [i] + Members(events, i, s.used);
      assert t.groups == s.groups + [g];
      if events[i].kind == PushEvent {
        MembersJoin(events, i, s.used);
      }
      forall a, k | 0 <= a < |t.groups| && 0 <= k < |events| && k !in t.used
        ensures !Member(events, t.groups[a][0], k)
      {
        if a < |s.groups| {
          assert t.groups[a] == s.groups[a];
        }
      }
      forall a, b | 0 <= a < b < |t.groups|
        ensures !Member(events, t.groups[a][0], t.groups[b][0])
      {
        assert t.groups[a] == s.groups[a];
        if b < |s.groups| {
          assert t.groups[b] == s.groups[b];
        }
      }
    }
  }

  lemma {:induction false} ShapeScan(events: seq<Activity>, i: nat)
    requires i <= |events|
    ensures Shape(events, i, ScanTo(events, i))
    decreases i
  {
    if i > 0 {
      ShapeScan(events, i - 1);
      VisitShape(events, i - 1, ScanTo(events, i - 1));
      assert ScanTo(events, i) == Visit(events, i - 1, ScanTo(events, i - 1));
    }
  }

  lemma {:induction false} CoverScan(events: seq<Activity>, i: nat)
    requires i <= |events|
    ensures Cover(events, i, ScanTo(events, i))
    decreases i
  {
    if i > 0 {
      CoverScan(events, i - 1);
      ShapeScan(events, i - 1);
      VisitCover(events, i - 1, ScanTo(events, i - 1));
      assert ScanTo(events, i) == Visit(events, i - 1, ScanTo(events, i - 1));
    }
  }

  lemma {:induction false} WindowScan(events: seq<Activity>, i: nat)
    requires i <= |events|
    ensures Window(events, ScanTo(events, i))
    decreases i
  {
    if i > 0 {
      WindowScan(events, i - 1);
      ShapeScan(events, i - 1);
      VisitWindow(events, i - 1, ScanTo(events, i - 1));
      assert ScanTo(events, i) == Visit(events, i - 1, ScanTo(events, i - 1));
    }
  }

  lemma {:induction false} FarScan(events: seq<Activity>, i: nat)
    requires i <= |events|
    ensures Far(events, ScanTo(events, i))
    decreases i
  {
    if i > 0 {
      FarScan(events, i - 1);
      ShapeScan(events, i - 1);
      VisitFar(events, i - 1, ScanTo(events, i - 1));
      assert ScanTo(events, i) == Visit(events, i - 1, ScanTo(events, i - 1));
    }
  }

  // ---------------------------------------------------------------------------
  // The theorems about groupSimilarEvents

  /** Every index of the feed lands in exactly one group. */
  lemma GroupsPartition(events: seq<Activity>)
    ensures NoDup(Flatten(Groups(events)))
    ensures forall k: nat :: k in Flatten(Groups(events)) <==> k < |events|
  {
    ShapeScan(events, |events|);
    CoverScan(events, |events|);
  }

  /** Groups come in the order of their first index, there are at most as many
      as events, and every member after the first is a push to the first one's
      repository within the window of its time. */
  lemma GroupsOrderAndWindow(events: seq<Activity>)
    ensures |Groups(events)| <= |events| && ValidGroups(|events|, Groups(events))
    ensures forall a, b :: 0 <= a < b < |Groups(events)| ==> Groups(events)[a][0] < Groups(events)[b][0]
    ensures forall a, j :: 0 <= a < |Groups(events)| && 1 <= j < |Groups(events)[a]| ==>
      Member(events, Groups(events)[a][0], Groups(events)[a][j])
  {
    ShapeScan(events, |events|);
    WindowScan(events, |events|);
  }

  /** The record a group becomes keeps the identity of the group's first event;
      a single event comes out unchanged. */
  lemma EmitIdentity(events: seq<Activity>, g: seq<nat>)
    requires |g| >= 1 && forall j :: 0 <= j < |g| ==> g[j] < |events|
    ensures var r, e := Emit(events, g), events[g[0]];
      r.id == e.id && r.kind == e.kind && r.repo == e.repo && r.createdAt == e.createdAt && r.at == e.at
    ensures |g| == 1 ==> Emit(events, g) == events[g[0]]
  {
    if |g| > 1 {
      assert Pick(events, g)[0] == events[g[0]];
    }
  }

  /** Each output record has the id, type, repository and time of its group's
      first event, so the output is one record per group, in anchor order. */
  lemma GroupedIdentity(events: seq<Activity>)
    ensures |Grouped(events)| == |Groups(events)| <= |events|
    ensures forall k :: 0 <= k < |Grouped(events)| ==>
      var r, e := Grouped(events)[k], events[Groups(events)[k][0]];
      r.id == e.id && r.kind == e.kind && r.repo == e.repo && r.createdAt == e.createdAt && r.at == e.at
  {
    GroupsOrderAndWindow(events);
    var gs := Groups(events);
    forall k | 0 <= k < |gs|
      ensures var r, e := Grouped(events)[k], events[gs[k][0]];
        r.id == e.id && r.kind == e.kind && r.repo == e.repo && r.createdAt == e.createdAt && r.at == e.at
    {
      EmitIdentity(events, gs[k]);
    }
  }

  /** Every output time is the time of some input event. */
  lemma GroupedTimesFromInput(events: seq<Activity>, prefix: string)
    requires forall k :: 0 <= k < |events| ==> StartsWith(events[k].createdAt, prefix)
    ensures forall k :: 0 <= k < |Grouped(events)| ==> StartsWith(Grouped(events)[k].createdAt, prefix)
  {
    GroupedIdentity(events);
  }

  /** The events that are not pushes, in order. */
  function NonPush(events: seq<Activity>): (r: seq<Activity>)
    ensures forall k :: 0 <= k < |r| ==> r[k].kind != PushEvent
    decreases |events|
  {
    if events == [] then []
    else
      var e := events[|events| - 1];
      NonPush(events[..|events| - 1]) + (if e.kind != PushEvent then [e] else [])
  }

  /** One step of the scan adds to the non-push output exactly the visited
      event when it is not a push. */
  lemma NonPushVisit(events: seq<Activity>, i: nat, s: Scan)
    requires i < |events| && Shape(events, i, s)
    ensures ValidGroups(|events|, Visit(events, i, s).groups)
    ensures NonPush(Render(events, Visit(events, i, s).groups)) ==
      NonPush(Render(events, s.groups)) + (if events[i].kind != PushEvent then [events[i]] else [])
  {
    VisitShape(events, i, s);
    var t := Visit(events, i, s);
    if i !in s.used {
      var g := if events[i].kind != PushEvent then [i] else [i] + Members(events, i, s.used);
      assert t.groups == s.groups + [g];
      RenderAppend(events, s.groups, g);
      EmitIdentity(events, g);
      var r := Render(events, t.groups);
      assert r[..|r| - 1] == Render(events, s.groups);
    }
  }

  lemma {:induction false} NonPushScan(events: seq<Activity>, i: nat)
    requires i <= |events|
    ensures ValidGroups(|events|, ScanTo(events, i).groups)
    ensures NonPush(Render(events, ScanTo(events, i).groups)) == NonPush(events[..i])
    decreases i
  {
    if i > 0 {
      NonPushScan(events, i - 1);
      NonPushStep(events, i);
    }
  }

  /** The scan step from i - 1 to i keeps the non-push output equal to the
      non-push prefix. */
  lemma NonPushStep(events: seq<Activity>, i: nat)
    requires 0 < i <= |events|
    requires NonPush(Render(events, ScanTo(events, i - 1).groups)) == NonPush(events[..i - 1])
    ensures NonPush(Render(events, ScanTo(events, i).groups)) == NonPush(events[..i])
  {
    var s := ScanTo(events, i - 1);
    assert ScanTo(events, i) == Visit(events, i - 1, s);
    ShapeScan(events, i - 1);
    NonPushVisit(events, i - 1, s);
    assert events[..i][..i - 1] == events[..i - 1];
  }

  /** Events other than pushes pass through unchanged and in their order. */
  lemma NonPushPassThrough(events: seq<Activity>)
    ensures NonPush(Grouped(events)) == NonPush(events)
  {
    NonPushScan(events, |events|);
    assert events[..|events|] == events;
  }

  // ---------------------------------------------------------------------------
  // Idempotence

  /** No two pushes to one repository are within the window of each other. */
  predicate Separated(events: seq<Activity>) {
    forall a, b ::
      (0 <= a < b < |events| && events[a].kind == PushEvent && events[b].kind == PushEvent && events[a].repo == events[b].repo)
      ==> Abs(events[a].at - events[b].at) > WindowMinutes
  }

  /** After grouping, no two pushes to one repository are within the window. */
  lemma GroupedSeparated(events: seq<Activity>)
    ensures Separated(Grouped(events))
  {
    FarScan(events, |events|);
    ShapeScan(events, |events|);
    GroupedIdentity(events);
    var out, gs := Grouped(events), Groups(events);
    forall a, b | 0 <= a < b < |out| && out[a].kind == PushEvent && out[b].kind == PushEvent && out[a].repo == out[b].repo
      ensures Abs(out[a].at - out[b].at) > WindowMinutes
    {
      assert !Member(events, gs[a][0], gs[b][0]);
      assert Abs(out[a].at - out[b].at) == Abs(events[gs[b][0]].at - events[gs[a][0]].at);
    }
  }

  /** Over a separated feed every push gathers nobody. */
  lemma SeparatedNoMembers(events: seq<Activity>, i: nat, used: set<nat>)
    requires Separated(events) && i < |events| && events[i].kind == PushEvent
    ensures Members(events, i, used) == []
  {
    forall k | 0 <= k < |events|
      ensures !Joins(events, i, used, k)
    {
      if k < i {
        assert Abs(events[k].at - events[i].at) == Abs(events[i].at - events[k].at);
      }
    }
    NoneJoin(events, i, used, |events|);
  }

  lemma {:induction false} NoneJoin(events: seq<Activity>, anchor: nat, used: set<nat>, k: nat)
    requires anchor < |events| && k <= |events|
    requires forall j :: 0 <= j < k ==> !Joins(events, anchor, used, j)
    ensures MembersBelow(events, anchor, used, k) == []
    decreases k
  {
    if k > 0 {
      NoneJoin(events, anchor, used, k - 1);
    }
  }

  function Singletons(n: nat): (r: seq<seq<nat>>)
    ensures |r| == n && forall k :: 0 <= k < n ==> r[k] == [k]
  {
    seq(n, k => [k])
  }

  /** Over a separated feed, visiting an untaken index makes it a group of its own. */
  lemma SeparatedVisit(events: seq<Activity>, i: nat, s: Scan)
    requires Separated(events) && i < |events| && i !in s.used
    ensures Visit(events, i, s).groups == s.groups + [[i]]
    ensures Visit(events, i, s).used <= s.used + {i}
  {
    if events[i].kind == PushEvent {
      SeparatedNoMembers(events, i, s.used);
      var m := Members(events, i, s.used);
      assert [i] + m == [i];
    }
  }

  lemma {:induction false} SeparatedScan(events: seq<Activity>, i: nat)
    requires Separated(events) && i <= |events|
    ensures ScanTo(events, i).groups == Singletons(i)
    ensures forall k :: k in ScanTo(events, i).used ==> k < i
    decreases i
  {
    if i > 0 {
      SeparatedScan(events, i - 1);
      SeparatedStep(events, i - 1, ScanTo(events, i - 1));
    }
  }

  /** On a separated feed, a scan that has made only singletons and taken only
      visited indices does the same after one more step. */
  lemma SeparatedStep(events: seq<Activity>, i: nat, s: Scan)
    requires Separated(events) && i < |events|
    requires s.groups == Singletons(i) && forall k :: k in s.used ==> k < i
    ensures Visit(events, i, s).groups == Singletons(i + 1)
    ensures forall k :: k in Visit(events, i, s).used ==> k < i + 1
  {
    SeparatedVisit(events, i, s);
    SingletonsAppend(i);
  }

  lemma SingletonsAppend(n: nat)
    ensures Singletons(n) + [[n]] == Singletons(n + 1)
  {
  }

  /** A separated feed is left as it is. */
  lemma SeparatedFixed(events: seq<Activity>)
    requires Separated(events)
    ensures Grouped(events) == events
  {
    SeparatedScan(events, |events|);
  }

  /** Grouping the grouped feed again changes nothing. */
  lemma GroupingIdempotent(events: seq<Activity>)
    ensures Grouped(Grouped(events)) == Grouped(events)
  {
    GroupedSeparated(events);
    SeparatedFixed(Grouped(events));
  }
}
