/**
 * The decision rules of the date pickers' calendar header: which view a click
 * on the month label requests, whether the header renders at all, whether the
 * switch-view button shows, and which month the arrows request.
 */
module CalendarHeader {
  import opened Wrappers

  /** The calendar views a header can switch between. */
  datatype DateView = Year | Month | Day

  /** `views[i]`, which is `undefined` past the end of the array. */
  function At(views: seq<DateView>, i: int): (r: Option<DateView>)
    ensures r.Some? <==> 0 <= i < |views|
    ensures r.Some? ==> r.value == views[i]
  {
    if 0 <= i < |views| then Some(views[i]) else None
  }

  /** `views.indexOf(view)`: the first position of `view`, or -1. */
  function IndexOf(views: seq<DateView>, view: DateView): (r: int)
    ensures -1 <= r < |views|
    ensures r == -1 <==> view !in views
    ensures r >= 0 ==> views[r] == view && view !in views[..r]
  {
    if views == [] then -1
    else if views[0] == view then 0
    else
      var k := IndexOf(views[1..], view);
      if k == -1 then -1
      else
        assert views[..k + 1] == [views[0]] + views[1..][..k];
        k + 1
  }

  /** `views.find((el) => el !== view)`: the first view other than `view`, or `undefined`. */
  function FindOther(views: seq<DateView>, view: DateView): (r: Option<DateView>)
    ensures r.None? <==> forall i :: 0 <= i < |views| ==> views[i] == view
    ensures r.Some? ==> r.value != view
    ensures r.Some? ==> exists i :: (0 <= i < |views| && views[i] == r.value
                                     && forall j :: 0 <= j < i ==> views[j] == view)
  {
    if views == [] then None
    else if views[0] != view then Some(views[0])
    else
      var r := FindOther(views[1..], view);
      if r.Some? then
        var i :| 0 <= i < |views[1..]| && views[1..][i] == r.value
                 && forall j :: 0 <= j < i ==> views[1..][j] == view;
        assert views[i + 1] == r.value && forall j :: 0 <= j < i + 1 ==> views[j] == view;
        r
      else r
  }

  /** What a click on the label does: nothing, or `onViewChange(view)` with a possibly undefined view. */
  datatype ToggleOutcome = NoRequest | Request(view: Option<DateView>)

  /**
   * `handleToggleView`. `hasOnViewChange` says whether the callback was given;
   * `disabled` is the header's disabled prop.
   */
  function ToggleView(views: seq<DateView>, view: DateView, hasOnViewChange: bool, disabled: bool): (r: ToggleOutcome)
    ensures r.NoRequest? <==> |views| == 1 || !hasOnViewChange || disabled
    // Two views: the view other than the current one, or the first when there is none.
    ensures r.Request? && |views| == 2 ==>
      (if views[0] != view then r.view == Some(views[0])
       else if views[1] != view then r.view == Some(views[1])
       else r.view == Some(views[0]))
    // Three or more views: only the first two alternate.
    ensures r.Request? && |views| >= 3 ==>
      r.view == Some(if views[0] == view then views[1] else views[0])
    // An empty list requests `views[0]`, which is undefined.
    ensures r.Request? && |views| == 0 ==> r.view == None
  {
    if |views| == 1 || !hasOnViewChange || disabled then NoRequest
    else if |views| == 2 then
      var other := FindOther(views, view);
      Request(if other.Some? then other else At(views, 0))
    else
      var nextIndexToOpen := if IndexOf(views, view) != 0 then 0 else 1;
      Request(At(views, nextIndexToOpen))
  }

  /** Whenever toggling requests a view from a non-empty list, the view is one of `views`. */
  lemma ToggleRequestsListedView(views: seq<DateView>, view: DateView, hasOnViewChange: bool, disabled: bool)
    requires |views| > 0
    requires ToggleView(views, view, hasOnViewChange, disabled).Request?
    ensures ToggleView(views, view, hasOnViewChange, disabled).view.Some?
    ensures ToggleView(views, view, hasOnViewChange, disabled).view.value in views
  {
  }

  /** With two distinct views and the current one among them, toggling requests the other one. */
  lemma ToggleTwoViewsSwaps(views: seq<DateView>, view: DateView)
    requires |views| == 2 && views[0] != views[1] && view in views
    ensures ToggleView(views, view, true, false) == Request(Some(if view == views[0] then views[1] else views[0]))
  {
  }

  /** With two or more distinct leading views, toggling twice from either of the first two returns to it. */
  lemma ToggleTwiceReturns(views: seq<DateView>, view: DateView)
    requires |views| >= 2 && views[0] != views[1]
    requires view == views[0] || view == views[1]
    ensures var next := ToggleView(views, view, true, false);
            next.Request? && next.view.Some? &&
            ToggleView(views, next.view.value, true, false) == Request(Some(view))
  {
  }

  /** `views.length === 1 && views[0] === 'year'`: the header renders nothing. */
  predicate RendersNothing(views: seq<DateView>)
  {
    |views| == 1 && views[0] == Year
  }

  /** The header is hidden exactly for the year-only calendar. */
  lemma RendersNothingExactly(views: seq<DateView>)
    ensures RendersNothing(views) <==> views == [Year]
  {
  }

  /** `views.length > 1 && !disabled`: the switch-view button is shown. */
  predicate ShowsSwitchViewButton(views: seq<DateView>, disabled: bool)
  {
    |views| > 1 && !disabled
  }

  /** A visible switch-view button always does something when clicked, given a callback. */
  lemma SwitchButtonToggles(views: seq<DateView>, view: DateView, disabled: bool)
    requires ShowsSwitchViewButton(views, disabled)
    ensures ToggleView(views, view, true, disabled).Request?
    ensures ToggleView(views, view, true, disabled).view.Some?
  {
  }

  /** The direction of the month slide transition. */
  datatype SlideDirection = Left | Right

  /** `onMonthChange(utils.addMonths(month, ±1), direction)`; months are counted as integers. */
  datatype MonthRequest = MonthRequest(month: int, direction: SlideDirection)

  /** `selectNextMonth`. */
  function SelectNextMonth(month: int): (r: MonthRequest)
    ensures r.month > month && r.month - month == 1 && r.direction == Left
  {
    MonthRequest(month + 1, Left)
  }

  /** `selectPreviousMonth`. */
  function SelectPreviousMonth(month: int): (r: MonthRequest)
    ensures r.month < month && month - r.month == 1 && r.direction == Right
  {
    MonthRequest(month - 1, Right)
  }

  /** Going forward then back (or back then forward) lands on the same month, sliding the opposite way. */
  lemma NextPreviousInverse(month: int)
    ensures SelectPreviousMonth(SelectNextMonth(month).month).month == month
    ensures SelectNextMonth(SelectPreviousMonth(month).month).month == month
    ensures SelectNextMonth(month).direction != SelectPreviousMonth(month).direction
  {
  }
}
