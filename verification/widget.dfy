/** The dashboard's "Recent Activity" widget: the two pieces of state the page
    keeps between requests (whether the whole feed is shown, and the selected
    year) and the two read operations that turn the event feed into what the
    page lists. */
module ActivityWidget {
  import opened Wrappers
  import opened PhpText
  import opened GitHubService
  import opened RecentActivity
  import opened GroupingProofs

  /** The events a widget in this state lists, before grouping: the whole feed
      once "load more" was pressed, otherwise the events of the selected period
      (no selection means the current year): the current month when the
      selected year is this year, otherwise the whole selected year. */
  function Visible(showAll: bool, selectedYear: Option<int>, feed: seq<Activity>, now: Clock): (r: seq<Activity>)
    ensures showAll ==> r == feed
    ensures !showAll ==>
      var prefix := if selectedYear.GetOr(now.year) == now.year then now.yearMonth else IntToString(selectedYear.GetOr(now.year));
      (forall e :: e in r ==> e in feed && StartsWith(e.createdAt, prefix)) &&
      (forall k :: 0 <= k < |feed| && StartsWith(feed[k].createdAt, prefix) ==> feed[k] in r)
  {
    if showAll then feed else InPeriod(feed, PeriodPrefix(selectedYear.GetOr(now.year), now))
  }

  class Widget {
    var showAll: bool
    var selectedYear: Option<int>

    /** A fresh widget shows one period and has no year selected. */
    constructor ()
      ensures !showAll && selectedYear == None
    {
      showAll := false;
      selectedYear := None;
    }

    /** Mounting selects the current year unless a year is already selected. */
    method Mount(now: Clock)
      modifies this
      ensures selectedYear == Some(old(selectedYear).GetOr(now.year))
      ensures showAll == old(showAll)
    {
      selectedYear := Some(selectedYear.GetOr(now.year));
    }

    /** The 'year-changed' event selects the year and goes back to one period. */
    method UpdateYear(year: int)
      modifies this
      ensures selectedYear == Some(year) && !showAll
    {
      selectedYear := Some(year);
      showAll := false;
    }

    /** "Load more" lists the whole feed; the selected year is kept. */
    method LoadMore()
      modifies this
      ensures showAll && selectedYear == old(selectedYear)
    {
      showAll := true;
    }

    /** The events the widget lists: the feed `getRecentEvents(100)` returns,
        cut to the selected period unless everything is shown, then grouped.
        Every listed time lies in that period. */
    method GetEvents(reply: Option<seq<RawEvent>>, api: CompareApi, now: Clock) returns (events: seq<Activity>)
      ensures events == Grouped(Visible(showAll, selectedYear, RecentEvents(reply, api), now))
      ensures !showAll ==> forall k :: 0 <= k < |events| ==>
        StartsWith(events[k].createdAt, PeriodPrefix(selectedYear.GetOr(now.year), now))
    {
      var feed := RecentEvents(reply, api);
      var visible := feed;
      if !showAll {
        var year := selectedYear.GetOr(now.year);
        var prefix := if year == now.year then now.yearMonth else IntToString(year);
        visible := InPeriod(feed, prefix);
        GroupedTimesFromInput(visible, prefix);
      }
      events := GroupSimilarEvents(visible);
    }

    /** The listed events bucketed by month label, in order of first appearance;
        `monthOf` is the 'F Y' rendering of a record's time. */
    method GetGroupedEvents(reply: Option<seq<RawEvent>>, api: CompareApi, now: Clock, monthOf: string -> string)
      returns (order: seq<string>, months: map<string, seq<Activity>>)
      ensures var listed := Grouped(Visible(showAll, selectedYear, RecentEvents(reply, api), now));
        order == Distinct(MonthLabels(listed, monthOf)) &&
        (forall month :: month in months <==> month in order) &&
        (forall month :: month in months ==> months[month] == InMonth(listed, monthOf, month))
    {
      var events := GetEvents(reply, api, now);
      order, months := GroupByMonth(events, monthOf);
    }
  }

  /** Outside the current year the period is the year itself, so two different
      years of the same width (four digits, say) never admit the same event. */
  lemma OtherYearsAreDisjoint(a: int, b: int, now: Clock, createdAt: string)
    requires a != now.year && b != now.year && a != b
    requires |IntToString(a)| == |IntToString(b)|
    ensures !(StartsWith(createdAt, PeriodPrefix(a, now)) && StartsWith(createdAt, PeriodPrefix(b, now)))
  {
    if StartsWith(createdAt, PeriodPrefix(a, now)) && StartsWith(createdAt, PeriodPrefix(b, now)) {
      assert IntToString(a) == createdAt[..|IntToString(a)|] == IntToString(b);
      IntToStringInjective(a, b);
    }
  }
}
